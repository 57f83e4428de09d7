/**
 * Tag deduplication (PersistenceController+Deduplicate.swift).  Peers that create a tag with the
 * same name in the same record zone end up with duplicates once their changes meet.  Each peer
 * settles them on its own: the duplicate with the smallest uuid wins, the photos of every loser
 * are re-pointed to the winner, and the losers are deleted.  Because the winner depends only on
 * the rows and not on who runs the merge, all peers reach the same table without coordination.
 */
module Deduplicate {
  import opened Wrappers
  import opened Schema
  import opened TagTable

  /** The merge decided for one candidate: the winner and the losers, in uuid order. */
  datatype Plan = Plan(winner: Tag, losers: seq<Tag>)

  /**
   * The duplicate search of `deduplicate(tagObjectID:)`: skip a candidate that is gone or has no
   * name, fetch the tags of that name sorted by uuid, keep those in the candidate's record zone,
   * and stop unless at least two remain.
   */
  function PlanFor(tags: seq<Tag>, id: ObjectId): Option<Plan>
  {
    match Lookup(tags, id)
    case None => None
    case Some(tag) =>
      if tag.name.None? then None
      else
        if |SortedNamed(tags, tag.name.value)| <= 1 then None
        else
          var dups := Duplicates(tags, tag.name.value, tag.zone);
          if |dups| <= 1 then None
          else Some(Plan(dups[0], dups[1..]))
  }

  /** The fetch of every tag with this name, sorted by ascending uuid. */
  function SortedNamed(tags: seq<Tag>, name: string): seq<Tag>
  {
    SortByUuid(NamedRows(tags, name))
  }

  /** That fetch, filtered to one record zone: the duplicate group, winner first. */
  function Duplicates(tags: seq<Tag>, name: string, zone: Option<ZoneId>): seq<Tag>
  {
    ZoneRows(SortedNamed(tags, name), zone)
  }

  /** Union of the photos of some rows. */
  function PhotosOf(ls: seq<Tag>): set<ObjectId>
  {
    if |ls| == 0 then {} else ls[0].photos + PhotosOf(ls[1..])
  }

  /** The object ids of some rows. */
  function IdsOf(ls: seq<Tag>): set<ObjectId>
  {
    set t | t in ls :: t.id
  }

  /** Every photo that belongs to some tag of a group. */
  function GroupPhotos(tags: seq<Tag>, name: string, zone: Option<ZoneId>): set<ObjectId>
  {
    set t, p | t in tags && InGroup(t, name, zone) && p in t.photos :: p
  }

  /**
   * One loser of `remove(duplicatedTags:winner:)`: each of its photos drops the loser and gains
   * the winner, then the loser is deleted.  The loser's photos are read from the current table.
   */
  function MergeLoser(tags: seq<Tag>, winner: ObjectId, loser: ObjectId): seq<Tag>
  {
    match Lookup(tags, loser)
    case None => tags
    case Some(l) => WithoutId(AddPhotosTo(tags, winner, l.photos), loser)
  }

  /** `remove(duplicatedTags:winner:)`: merge the losers into the winner one after another. */
  function RemoveDuplicates(tags: seq<Tag>, losers: seq<Tag>, winner: ObjectId): (r: seq<Tag>)
    decreases |losers|
    ensures forall t :: t in r && t.id != winner ==> t in tags
  {
    if |losers| == 0 then tags
    else
      var next := MergeLoser(tags, winner, losers[0].id);
      MergeLoserTouchesOnlyWinner(tags, winner, losers[0].id);
      RemoveDuplicates(next, losers[1..], winner)
  }

  /** Merging one loser changes no row but the winner's; it only drops rows. */
  lemma MergeLoserTouchesOnlyWinner(tags: seq<Tag>, winner: ObjectId, loser: ObjectId)
    ensures forall t :: t in MergeLoser(tags, winner, loser) && t.id != winner ==> t in tags
  {
    if Lookup(tags, loser).Some? {
      var l := Lookup(tags, loser).value;
      var mid := AddPhotosTo(tags, winner, l.photos);
      forall t | t in mid && t.id != winner
        ensures t in tags
      {
        var i :| 0 <= i < |mid| && mid[i] == t;
        assert tags[i] == t;
      }
    }
  }

  /** `deduplicate(tagObjectID:)`: only the tag table can change. */
  function DeduplicateTag(g: Graph, id: ObjectId): (r: Graph)
    ensures r == g.(tags := r.tags)
  {
    match PlanFor(g.tags, id)
    case None => g
    case Some(p) =>
      g.(tags := RemoveDuplicates(g.tags, p.losers, p.winner.id))
  }

  /** `deduplicateAndWait(tagObjectIDs:)`: the candidates one at a time, in the given order. */
  function DeduplicateAndWait(g: Graph, ids: seq<ObjectId>): (r: Graph)
    ensures r == g.(tags := r.tags)
    decreases |ids|
  {
    if |ids| == 0 then g
    else
      var g1 := DeduplicateTag(g, ids[0]);
      DeduplicateAndWait(g1, ids[1..])
  }

  /** The duplicate group lists exactly the group's rows, once each, in ascending uuid order. */
  lemma DuplicatesFacts(tags: seq<Tag>, name: string, zone: Option<ZoneId>)
    requires UniqueIds(tags)
    ensures forall t :: t in Duplicates(tags, name, zone) <==> t in tags && InGroup(t, name, zone)
    ensures Distinct(Duplicates(tags, name, zone)) && SortedByUuid(Duplicates(tags, name, zone))
    ensures |Duplicates(tags, name, zone)| <= |SortedNamed(tags, name)|
  {
    UniqueIdsDistinct(tags);
    SortByUuidSorted(NamedRows(tags, name));
  }

  /**
   * The early exits of the search: a candidate that is gone or has no name gets no plan, and a
   * plan always has at least one loser.
   */
  lemma PlanForSkips(tags: seq<Tag>, id: ObjectId)
    ensures Lookup(tags, id).None? ==> PlanFor(tags, id).None?
    ensures Lookup(tags, id).Some? && Lookup(tags, id).value.name.None? ==> PlanFor(tags, id).None?
    ensures PlanFor(tags, id).Some? ==> |PlanFor(tags, id).value.losers| >= 1
  {
  }

  /** The search merges nothing exactly when the candidate's group has at most one tag. */
  lemma PlanNoneIff(tags: seq<Tag>, c: Tag)
    requires UniqueIds(tags) && c in tags && c.name.Some?
    ensures PlanFor(tags, c.id).None? <==> AtMostOne(tags, c.name.value, c.zone)
  {
    PlanNoneIffSmall(tags, c);
    SmallIffAtMostOne(tags, c.name.value, c.zone);
  }

  /** The search merges nothing exactly when the duplicate group has fewer than two rows. */
  lemma PlanNoneIffSmall(tags: seq<Tag>, c: Tag)
    requires UniqueIds(tags) && c in tags && c.name.Some?
    ensures PlanFor(tags, c.id).None? <==> |Duplicates(tags, c.name.value, c.zone)| <= 1
  {
    LookupFinds(tags, c);
    DuplicatesFacts(tags, c.name.value, c.zone);
  }

  /** The duplicate group has fewer than two rows exactly when the group has converged. */
  lemma SmallIffAtMostOne(tags: seq<Tag>, n: string, z: Option<ZoneId>)
    requires UniqueIds(tags)
    ensures |Duplicates(tags, n, z)| <= 1 <==> AtMostOne(tags, n, z)
  {
    DuplicatesFacts(tags, n, z);
    var dups := Duplicates(tags, n, z);
    if |dups| <= 1 {
      forall t1, t2 | t1 in tags && t2 in tags && InGroup(t1, n, z) && InGroup(t2, n, z)
        ensures t1 == t2
      {
        assert t1 in dups && t2 in dups;
      }
    } else {
      assert dups[0] in dups && dups[1] in dups;
      assert dups[0] != dups[1];
    }
  }

  /**
   * When the search merges, the winner is a member of the candidate's group with the smallest
   * uuid, and the losers are the other members, each once.
   */
  lemma PlanShape(tags: seq<Tag>, c: Tag)
    requires UniqueIds(tags) && c in tags && c.name.Some?
    requires !AtMostOne(tags, c.name.value, c.zone)
    ensures PlanFor(tags, c.id).Some?
    ensures var p := PlanFor(tags, c.id).value;
      && p.winner in tags && InGroup(p.winner, c.name.value, c.zone)
      && (forall l :: l in p.losers ==>
            l in tags && InGroup(l, c.name.value, c.zone) && l.id != p.winner.id && p.winner.uuid <= l.uuid)
      && (forall t :: t in tags && InGroup(t, c.name.value, c.zone) ==> t == p.winner || t in p.losers)
      && UniqueIds(p.losers)
  {
    PlanNoneIff(tags, c);
    LookupFinds(tags, c);
    var dups := Duplicates(tags, c.name.value, c.zone);
    assert PlanFor(tags, c.id).value == Plan(dups[0], dups[1..]);
    DuplicatesFacts(tags, c.name.value, c.zone);
    SplitGroup(tags, dups, c.name.value, c.zone);
  }

  /** Splitting a sorted duplicate group into its head and the rest. */
  lemma SplitGroup(tags: seq<Tag>, dups: seq<Tag>, n: string, z: Option<ZoneId>)
    requires UniqueIds(tags) && |dups| >= 2
    requires forall t :: t in dups <==> t in tags && InGroup(t, n, z)
    requires Distinct(dups) && SortedByUuid(dups)
    ensures var w, ls := dups[0], dups[1..];
      && w in tags && InGroup(w, n, z)
      && (forall l :: l in ls ==> l in tags && InGroup(l, n, z) && l.id != w.id && w.uuid <= l.uuid)
      && (forall t :: t in tags && InGroup(t, n, z) ==> t == w || t in ls)
      && UniqueIds(ls)
  {
    var w, ls := dups[0], dups[1..];
    SortedHeadIsMinimal(dups);
    forall l | l in ls
      ensures l in tags && InGroup(l, n, z) && l.id != w.id && w.uuid <= l.uuid
    {
      assert l in dups;
      var k :| 0 <= k < |ls| && ls[k] == l;
      assert l == dups[k + 1];
      if l.id == w.id {
        RowsDeterminedById(tags, l, w);
      }
    }
    forall t | t in tags && InGroup(t, n, z)
      ensures t == w || t in ls
    {
      assert t in dups;
      if t != w {
        var k :| 0 <= k < |dups| && dups[k] == t;
        assert ls[k - 1] == t;
      }
    }
    assert Distinct(ls) by {
      forall i, j | 0 <= i < j < |ls|
        ensures ls[i] != ls[j]
      {
        assert ls[i] == dups[i + 1] && ls[j] == dups[j + 1];
      }
    }
    DistinctRowsHaveUniqueIds(tags, ls);
  }

  /**
   * Merging losers into a winner deletes every loser, adds every loser's photos to the winner,
   * and leaves every other row as it was.
   */
  lemma {:induction false} RemoveDuplicatesEffect(tags: seq<Tag>, losers: seq<Tag>, w: Tag)
    requires UniqueIds(tags) && w in tags && UniqueIds(losers)
    requires forall l :: l in losers ==> l in tags && l.id != w.id
    ensures var r := RemoveDuplicates(tags, losers, w.id);
      && UniqueIds(r)
      && w.(photos := w.photos + PhotosOf(losers)) in r
      && (forall t :: t in r ==> t.id !in IdsOf(losers))
      && (forall t :: t in tags && t.id != w.id && t.id !in IdsOf(losers) ==> t in r)
      && (forall t :: t in r && t.id != w.id ==> t in tags)
    decreases |losers|
  {
    if |losers| == 0 {
      assert w.(photos := w.photos + PhotosOf(losers)) == w;
    } else {
      var l0, rest := losers[0], losers[1..];
      var next := MergeLoser(tags, w.id, l0.id);
      var w1 := w.(photos := w.photos + l0.photos);
      MergeFirstLoser(tags, losers, w);
      RemoveDuplicatesEffect(next, rest, w1);
      var r := RemoveDuplicates(tags, losers, w.id);
      assert r == RemoveDuplicates(next, rest, w.id);
      assert w1.(photos := w1.photos + PhotosOf(rest)) == w.(photos := w.photos + PhotosOf(losers));
      assert IdsOf(losers) == {l0.id} + IdsOf(rest) by {
        assert forall t :: t in losers <==> t == l0 || t in rest;
      }
      forall t | t in r
        ensures t.id !in IdsOf(losers)
      {
        if t.id != w.id {
          assert t in next;
        }
      }
    }
  }

  /** The first merge step of `RemoveDuplicates`, with what the rest of the loop needs. */
  lemma MergeFirstLoser(tags: seq<Tag>, losers: seq<Tag>, w: Tag)
    requires UniqueIds(tags) && w in tags && UniqueIds(losers) && |losers| > 0
    requires forall l :: l in losers ==> l in tags && l.id != w.id
    ensures var next := MergeLoser(tags, w.id, losers[0].id);
      var w1 := w.(photos := w.photos + losers[0].photos);
      && UniqueIds(next) && w1 in next && UniqueIds(losers[1..])
      && (forall l :: l in losers[1..] ==> l in next && l.id != w1.id)
      && (forall t :: t in next ==> t.id != losers[0].id)
      && (forall t :: t in tags && t.id != w.id && t.id != losers[0].id ==> t in next)
  {
    var l0, rest := losers[0], losers[1..];
    LookupFinds(tags, l0);
    AddPhotosToRows(tags, w, l0.photos);
    var mid := AddPhotosTo(tags, w.id, l0.photos);
    var next := WithoutId(mid, l0.id);
    assert next == MergeLoser(tags, w.id, l0.id);
    forall l | l in rest
      ensures l in next
    {
      var k :| 0 <= k < |rest| && rest[k] == l;
      assert losers[k + 1] == l;
      assert l.id != l0.id;
    }
    assert UniqueIds(rest) by {
      forall i, j | 0 <= i < j < |rest|
        ensures rest[i].id != rest[j].id
      {
        assert rest[i] == losers[i + 1] && rest[j] == losers[j + 1];
      }
    }
  }

  lemma {:induction false} PhotosOfMembership(ls: seq<Tag>, p: ObjectId)
    ensures p in PhotosOf(ls) <==> exists t :: t in ls && p in t.photos
  {
    if |ls| > 0 {
      PhotosOfMembership(ls[1..], p);
      assert forall t :: t in ls <==> t == ls[0] || t in ls[1..];
    }
  }

  /** The winner after the merge: it carries the photos of the whole group. */
  function MergedWinner(tags: seq<Tag>, w: Tag): Tag
    requires w.name.Some?
  {
    w.(photos := GroupPhotos(tags, w.name.value, w.zone))
  }

  /**
   * `deduplicate(tagObjectID:)` on a candidate whose group (n, z) holds two or more tags: the
   * winner has the smallest uuid of the group; afterwards the group holds only the winner, which
   * carries every photo of the group, and every row outside the group is kept unchanged.
   */
  lemma DeduplicateTagEffect(g: Graph, c: Tag)
    requires UniqueIds(g.tags) && c in g.tags && c.name.Some?
    requires !AtMostOne(g.tags, c.name.value, c.zone)
    ensures PlanFor(g.tags, c.id).Some?
    ensures var n, z := c.name.value, c.zone;
      var w := PlanFor(g.tags, c.id).value.winner;
      var r := DeduplicateTag(g, c.id).tags;
      && w in g.tags && InGroup(w, n, z)
      && (forall t :: t in g.tags && InGroup(t, n, z) ==> w.uuid <= t.uuid)
      && UniqueIds(r)
      && AtMostOne(r, n, z)
      && (forall t :: t in r <==> (t in g.tags && !InGroup(t, n, z)) || t == MergedWinner(g.tags, w))
  {
    PlanNoneIff(g.tags, c);
    PlanShape(g.tags, c);
    var p := PlanFor(g.tags, c.id).value;
    assert DeduplicateTag(g, c.id).tags == RemoveDuplicates(g.tags, p.losers, p.winner.id);
    RemoveDuplicatesEffect(g.tags, p.losers, p.winner);
    MergeResult(g.tags, p.winner, p.losers, RemoveDuplicates(g.tags, p.losers, p.winner.id),
                c.name.value, c.zone);
  }

  /** The table after the merge, described row by row from the plan's facts. */
  lemma MergeResult(tags: seq<Tag>, w: Tag, ls: seq<Tag>, r: seq<Tag>, n: string, z: Option<ZoneId>)
    requires UniqueIds(tags) && w in tags && InGroup(w, n, z)
    requires forall l :: l in ls ==> l in tags && InGroup(l, n, z) && l.id != w.id
    requires forall t :: t in tags && InGroup(t, n, z) ==> t == w || t in ls
    requires UniqueIds(r)
    requires w.(photos := w.photos + PhotosOf(ls)) in r
    requires forall t :: t in r ==> t.id !in IdsOf(ls)
    requires forall t :: t in tags && t.id != w.id && t.id !in IdsOf(ls) ==> t in r
    requires forall t :: t in r && t.id != w.id ==> t in tags
    ensures AtMostOne(r, n, z)
    ensures forall t :: t in r <==> (t in tags && !InGroup(t, n, z)) || t == MergedWinner(tags, w)
  {
    var w' := MergedWinner(tags, w);
    assert w.photos + PhotosOf(ls) == GroupPhotos(tags, n, z) by {
      forall q
        ensures q in w.photos + PhotosOf(ls) <==> q in GroupPhotos(tags, n, z)
      {
        PhotosOfMembership(ls, q);
      }
    }
    assert w' in r;
    forall t | t in r
      ensures (t in tags && !InGroup(t, n, z)) || t == w'
    {
      if t.id == w.id {
        RowsDeterminedById(r, t, w');
      }
    }
    forall t | t in tags && !InGroup(t, n, z)
      ensures t in r
    {
      if t.id in IdsOf(ls) {
        var l :| l in ls && l.id == t.id;
        RowsDeterminedById(tags, t, l);
        assert false;
      }
    }
  }

  /**
   * Candidate `id` needs no merge: it is gone, has no name, or its group (name, zone) already
   * holds at most one tag.
   */
  predicate Settled(tags: seq<Tag>, id: ObjectId) {
    forall t :: t in tags && t.id == id && t.name.Some? ==> AtMostOne(tags, t.name.value, t.zone)
  }

  /** A candidate that is deleted, nameless or without duplicates leaves the graph unchanged. */
  lemma SettledIsNoop(g: Graph, id: ObjectId)
    requires UniqueIds(g.tags) && Settled(g.tags, id)
    ensures DeduplicateTag(g, id) == g
  {
    match Lookup(g.tags, id)
    case None =>
    case Some(c) =>
      if c.name.Some? {
        PlanNoneIff(g.tags, c);
      }
  }

  /** After `deduplicate(tagObjectID:)` the candidate needs no further merge. */
  lemma DeduplicateSettles(g: Graph, id: ObjectId)
    requires UniqueIds(g.tags)
    ensures UniqueIds(DeduplicateTag(g, id).tags)
    ensures Settled(DeduplicateTag(g, id).tags, id)
  {
    if Settled(g.tags, id) {
      SettledIsNoop(g, id);
    } else {
      var c :| c in g.tags && c.id == id && c.name.Some? && !AtMostOne(g.tags, c.name.value, c.zone);
      DeduplicateTagEffect(g, c);
      var r := DeduplicateTag(g, id).tags;
      forall t | t in r && t.id == id && t.name.Some?
        ensures AtMostOne(r, t.name.value, t.zone)
      {
        if t in g.tags && !InGroup(t, c.name.value, c.zone) {
          RowsDeterminedById(g.tags, t, c);
        }
      }
    }
  }

  /** `deduplicate(tagObjectID:)` never undoes the settling of another candidate. */
  lemma DeduplicateKeepsSettled(g: Graph, id: ObjectId, other: ObjectId)
    requires UniqueIds(g.tags) && Settled(g.tags, other)
    ensures Settled(DeduplicateTag(g, id).tags, other)
  {
    if Settled(g.tags, id) {
      SettledIsNoop(g, id);
    } else {
      var c :| c in g.tags && c.id == id && c.name.Some? && !AtMostOne(g.tags, c.name.value, c.zone);
      DeduplicateTagEffect(g, c);
      var n, z := c.name.value, c.zone;
      var w := PlanFor(g.tags, c.id).value.winner;
      var r := DeduplicateTag(g, id).tags;
      forall t | t in r && t.id == other && t.name.Some?
        ensures AtMostOne(r, t.name.value, t.zone)
      {
        if !InGroup(t, n, z) {
          assert t in g.tags;
          OtherGroupKept(g.tags, r, n, z, MergedWinner(g.tags, w), t.name.value, t.zone);
        }
      }
    }
  }

  /**
   * Replacing the rows of group (n, z) by one row of that group leaves every other group with
   * no more rows than before.
   */
  lemma OtherGroupKept(tags: seq<Tag>, r: seq<Tag>, n: string, z: Option<ZoneId>, m: Tag,
                       name: string, zone: Option<ZoneId>)
    requires InGroup(m, n, z) && (name != n || zone != z)
    requires forall t :: t in r <==> (t in tags && !InGroup(t, n, z)) || t == m
    requires AtMostOne(tags, name, zone)
    ensures AtMostOne(r, name, zone)
  {
    forall t1, t2 | t1 in r && t2 in r && InGroup(t1, name, zone) && InGroup(t2, name, zone)
      ensures t1 == t2
    {
      assert t1 in tags && t2 in tags;
    }
  }

  /**
   * `deduplicateAndWait(tagObjectIDs:)` settles every candidate it is given and keeps settled
   * every candidate that already was.
   */
  lemma {:induction false} DeduplicateAndWaitSettles(g: Graph, ids: seq<ObjectId>)
    requires UniqueIds(g.tags)
    ensures UniqueIds(DeduplicateAndWait(g, ids).tags)
    ensures forall id :: id in ids ==> Settled(DeduplicateAndWait(g, ids).tags, id)
    ensures forall other :: Settled(g.tags, other) ==> Settled(DeduplicateAndWait(g, ids).tags, other)
    decreases |ids|
  {
    if |ids| > 0 {
      var g1 := DeduplicateTag(g, ids[0]);
      DeduplicateSettles(g, ids[0]);
      forall other | Settled(g.tags, other)
        ensures Settled(g1.tags, other)
      {
        DeduplicateKeepsSettled(g, ids[0], other);
      }
      DeduplicateAndWaitSettles(g1, ids[1..]);
      assert DeduplicateAndWait(g, ids) == DeduplicateAndWait(g1, ids[1..]);
      forall id | id in ids
        ensures Settled(DeduplicateAndWait(g, ids).tags, id)
      {
        if id != ids[0] {
          assert id in ids[1..];
        }
      }
    }
  }

  lemma {:induction false} AllSettledIsNoop(g: Graph, ids: seq<ObjectId>)
    requires UniqueIds(g.tags)
    requires forall id :: id in ids ==> Settled(g.tags, id)
    ensures DeduplicateAndWait(g, ids) == g
    decreases |ids|
  {
    if |ids| > 0 {
      SettledIsNoop(g, ids[0]);
      assert forall id :: id in ids[1..] ==> id in ids;
      AllSettledIsNoop(g, ids[1..]);
    }
  }

  /** Running `deduplicateAndWait(tagObjectIDs:)` again on the same ids changes nothing. */
  lemma DeduplicateAndWaitIdempotent(g: Graph, ids: seq<ObjectId>)
    requires UniqueIds(g.tags)
    ensures DeduplicateAndWait(DeduplicateAndWait(g, ids), ids) == DeduplicateAndWait(g, ids)
  {
    DeduplicateAndWaitSettles(g, ids);
    AllSettledIsNoop(DeduplicateAndWait(g, ids), ids);
  }

  /** Row `t` lies outside the (name, zone) group of every candidate present in the table. */
  predicate OutsideCandidateGroups(tags: seq<Tag>, ids: seq<ObjectId>, t: Tag) {
    forall c :: c in tags && c.id in ids && c.name.Some? ==> !InGroup(t, c.name.value, c.zone)
  }

  /** Rows outside every candidate's group come out of `deduplicateAndWait` untouched. */
  lemma {:induction false} DeduplicateAndWaitKeepsOthers(g: Graph, ids: seq<ObjectId>, t: Tag)
    requires UniqueIds(g.tags) && t in g.tags && OutsideCandidateGroups(g.tags, ids, t)
    ensures t in DeduplicateAndWait(g, ids).tags
    decreases |ids|
  {
    if |ids| > 0 {
      var g1 := DeduplicateTag(g, ids[0]);
      DeduplicateSettles(g, ids[0]);
      if Settled(g.tags, ids[0]) {
        SettledIsNoop(g, ids[0]);
      } else {
        var c :| c in g.tags && c.id == ids[0] && c.name.Some? && !AtMostOne(g.tags, c.name.value, c.zone);
        DeduplicateTagEffect(g, c);
        assert !InGroup(t, c.name.value, c.zone);
      }
      assert t in g1.tags;
      assert OutsideCandidateGroups(g1.tags, ids[1..], t) by {
        forall c1 | c1 in g1.tags && c1.id in ids[1..] && c1.name.Some?
          ensures !InGroup(t, c1.name.value, c1.zone)
        {
          assert c1.id in ids;
        }
      }
      DeduplicateAndWaitKeepsOthers(g1, ids[1..], t);
    }
  }

  /** A row after one merge was there before or belongs to the candidate's (name, zone) group. */
  lemma DeduplicateTagOnlyMerges(g: Graph, id: ObjectId, t: Tag)
    requires UniqueIds(g.tags) && t in DeduplicateTag(g, id).tags
    ensures t in g.tags || exists c :: c in g.tags && c.id == id && c.name.Some? && InGroup(t, c.name.value, c.zone)
  {
    if Settled(g.tags, id) {
      SettledIsNoop(g, id);
    } else {
      var c :| c in g.tags && c.id == id && c.name.Some? && !AtMostOne(g.tags, c.name.value, c.zone);
      DeduplicateTagEffect(g, c);
      if t !in g.tags {
        var w := PlanFor(g.tags, c.id).value.winner;
        assert t == MergedWinner(g.tags, w);
        assert InGroup(t, c.name.value, c.zone);
      }
    }
  }

  /**
   * `deduplicateAndWait(tagObjectIDs:)` adds no row outside the candidates' groups: every row
   * afterwards was there before or has the name and zone of some candidate.
   */
  lemma {:induction false} DeduplicateAndWaitOnlyMerges(g: Graph, ids: seq<ObjectId>, t: Tag)
    requires UniqueIds(g.tags) && t in DeduplicateAndWait(g, ids).tags
    ensures t in g.tags || !OutsideCandidateGroups(g.tags, ids, t)
    decreases |ids|
  {
    if |ids| > 0 {
      var g1 := DeduplicateTag(g, ids[0]);
      DeduplicateSettles(g, ids[0]);
      assert t in DeduplicateAndWait(g1, ids[1..]).tags;
      DeduplicateAndWaitOnlyMerges(g1, ids[1..], t);
      if t in g1.tags {
        DeduplicateTagOnlyMerges(g, ids[0], t);
        if t !in g.tags {
          var c :| c in g.tags && c.id == ids[0] && c.name.Some? && InGroup(t, c.name.value, c.zone);
          assert c.id in ids;
        }
      } else {
        var c1 :| c1 in g1.tags && c1.id in ids[1..] && c1.name.Some? && InGroup(t, c1.name.value, c1.zone);
        assert c1.id in ids;
        DeduplicateTagOnlyMerges(g, ids[0], c1);
        if c1 !in g.tags {
          var c :| c in g.tags && c.id == ids[0] && c.name.Some? && InGroup(c1, c.name.value, c.zone);
          assert c.id in ids && InGroup(t, c.name.value, c.zone);
        }
      }
    }
  }

  /** Some row of `r` has `t`'s name and zone and holds every photo of `t`. */
  predicate GroupKept(r: seq<Tag>, t: Tag) {
    exists u :: u in r && u.name == t.name && u.zone == t.zone && t.photos <= u.photos
  }

  /** One pass never empties a group and never loses a photo from it. */
  lemma DeduplicateTagKeepsGroups(g: Graph, id: ObjectId, t: Tag)
    requires UniqueIds(g.tags) && t in g.tags
    ensures GroupKept(DeduplicateTag(g, id).tags, t)
  {
    var r := DeduplicateTag(g, id).tags;
    if Settled(g.tags, id) {
      SettledIsNoop(g, id);
      assert t in r;
    } else {
      var c :| c in g.tags && c.id == id && c.name.Some? && !AtMostOne(g.tags, c.name.value, c.zone);
      DeduplicateTagEffect(g, c);
      var n, z := c.name.value, c.zone;
      if InGroup(t, n, z) {
        var w := PlanFor(g.tags, c.id).value.winner;
        var m := MergedWinner(g.tags, w);
        assert m in r;
        assert t.photos <= m.photos by {
          forall p | p in t.photos
            ensures p in GroupPhotos(g.tags, n, z)
          {
          }
        }
      } else {
        assert t in r;
      }
    }
  }

  /**
   * `deduplicateAndWait(tagObjectIDs:)` never empties a group: every row that was there still has
   * a row of its name and zone holding all its photos.
   */
  lemma {:induction false} DeduplicateAndWaitKeepsGroups(g: Graph, ids: seq<ObjectId>, t: Tag)
    requires UniqueIds(g.tags) && t in g.tags
    ensures GroupKept(DeduplicateAndWait(g, ids).tags, t)
    decreases |ids|
  {
    if |ids| == 0 {
      assert t in DeduplicateAndWait(g, ids).tags;
    } else {
      var g1 := DeduplicateTag(g, ids[0]);
      DeduplicateTagKeepsGroups(g, ids[0], t);
      DeduplicateSettles(g, ids[0]);
      var u :| u in g1.tags && u.name == t.name && u.zone == t.zone && t.photos <= u.photos;
      DeduplicateAndWaitKeepsGroups(g1, ids[1..], u);
      var v :| v in DeduplicateAndWait(g1, ids[1..]).tags && v.name == u.name && v.zone == u.zone && u.photos <= v.photos;
      assert v in DeduplicateAndWait(g, ids).tags;
    }
  }

  /** Tags of the same name and record zone never share a uuid. */
  predicate UuidsDistinctInGroups(tags: seq<Tag>) {
    forall t1, t2 :: t1 in tags && t2 in tags && t1.name == t2.name && t1.zone == t2.zone && t1.uuid == t2.uuid ==> t1 == t2
  }

  /**
   * Leaderless convergence: two peers holding the same tag rows, in any row order, pick the same
   * winner and end up with the same rows, provided uuids are distinct within each group.
   */
  lemma DeduplicationConverges(g1: Graph, g2: Graph, c: Tag)
    requires UniqueIds(g1.tags) && UniqueIds(g2.tags)
    requires forall t :: t in g1.tags <==> t in g2.tags
    requires UuidsDistinctInGroups(g1.tags)
    requires c in g1.tags
    ensures PlanFor(g1.tags, c.id).Some? <==> PlanFor(g2.tags, c.id).Some?
    ensures PlanFor(g1.tags, c.id).Some? ==> PlanFor(g1.tags, c.id).value.winner == PlanFor(g2.tags, c.id).value.winner
    ensures forall t :: t in DeduplicateTag(g1, c.id).tags <==> t in DeduplicateTag(g2, c.id).tags
  {
    LookupFinds(g1.tags, c);
    LookupFinds(g2.tags, c);
    if c.name.Some? {
      var n, z := c.name.value, c.zone;
      PlanNoneIff(g1.tags, c);
      PlanNoneIff(g2.tags, c);
      assert AtMostOne(g1.tags, n, z) <==> AtMostOne(g2.tags, n, z);
      if !AtMostOne(g1.tags, n, z) {
        MergedConverges(g1, g2, c);
      }
    }
  }

  /** Both peers merge the candidate's group: they pick the same winner and keep the same rows. */
  lemma MergedConverges(g1: Graph, g2: Graph, c: Tag)
    requires UniqueIds(g1.tags) && UniqueIds(g2.tags)
    requires forall t :: t in g1.tags <==> t in g2.tags
    requires UuidsDistinctInGroups(g1.tags)
    requires c in g1.tags && c.name.Some?
    requires !AtMostOne(g1.tags, c.name.value, c.zone) && !AtMostOne(g2.tags, c.name.value, c.zone)
    ensures PlanFor(g1.tags, c.id).Some? && PlanFor(g2.tags, c.id).Some?
    ensures PlanFor(g1.tags, c.id).value.winner == PlanFor(g2.tags, c.id).value.winner
    ensures forall t :: t in DeduplicateTag(g1, c.id).tags <==> t in DeduplicateTag(g2, c.id).tags
  {
    var n, z := c.name.value, c.zone;
    DeduplicateTagEffect(g1, c);
    DeduplicateTagEffect(g2, c);
    var w1 := PlanFor(g1.tags, c.id).value.winner;
    var w2 := PlanFor(g2.tags, c.id).value.winner;
    SameMinimum(g1.tags, g2.tags, w1, w2, n, z);
    SameGroupPhotos(g1.tags, g2.tags, n, z);
  }

  /** In the same rows, the row of a group with the smallest uuid is one row, not two. */
  lemma SameMinimum(a: seq<Tag>, b: seq<Tag>, w1: Tag, w2: Tag, n: string, z: Option<ZoneId>)
    requires forall t :: t in a <==> t in b
    requires UuidsDistinctInGroups(a)
    requires w1 in a && InGroup(w1, n, z) && (forall t :: t in a && InGroup(t, n, z) ==> w1.uuid <= t.uuid)
    requires w2 in b && InGroup(w2, n, z) && (forall t :: t in b && InGroup(t, n, z) ==> w2.uuid <= t.uuid)
    ensures w1 == w2
  {
    assert w2 in a;
    assert w1.uuid <= w2.uuid && w2.uuid <= w1.uuid;
  }

  /** The photos of a group depend only on which rows the table holds. */
  lemma SameGroupPhotos(a: seq<Tag>, b: seq<Tag>, n: string, z: Option<ZoneId>)
    requires forall t :: t in a <==> t in b
    ensures GroupPhotos(a, n, z) == GroupPhotos(b, n, z)
  {
  }

  /** Deduplication keeps the graph well formed: ids stay unique and tags point at real photos. */
  lemma DeduplicateTagValid(g: Graph, id: ObjectId)
    requires Valid(g)
    ensures Valid(DeduplicateTag(g, id))
  {
    if Settled(g.tags, id) {
      SettledIsNoop(g, id);
    } else {
      var c :| c in g.tags && c.id == id && c.name.Some? && !AtMostOne(g.tags, c.name.value, c.zone);
      DeduplicateTagEffect(g, c);
    }
  }

  lemma {:induction false} DeduplicateAndWaitValid(g: Graph, ids: seq<ObjectId>)
    requires Valid(g)
    ensures Valid(DeduplicateAndWait(g, ids))
    decreases |ids|
  {
    if |ids| > 0 {
      DeduplicateTagValid(g, ids[0]);
      DeduplicateAndWaitValid(DeduplicateTag(g, ids[0]), ids[1..]);
    }
  }
}
