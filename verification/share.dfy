/**
 * Sharing (PersistenceController+Share.swift): sharing an object to a new or an existing share,
 * finding the store a share lives in, looking shares up by title, and adding and removing
 * participants.  Every CloudKit or mirroring call is an oracle: its reply is a parameter.
 */
module Sharing {
  import opened Wrappers
  import opened Schema
  import opened CloudKit
  import opened Deduplicate
  import opened CoreDataHelper

  /** The system title `configure(share:with:)` writes on every new share. */
  const DefaultShareTitle: string := "A cool photo 2"

  /** The (share, error) pair a completion handler receives. */
  datatype Completion = Completion(share: Option<Share>, error: Option<CloudError>)

  // ---------------------------------------------------------------------------------------------
  // Which store a share lives in

  /** The record zones of some shares, in order. */
  function ZoneIds(shares: seq<Share>): (r: seq<ZoneId>)
    ensures |r| == |shares|
    ensures forall z :: z in r <==> exists sh :: sh in shares && sh.zone == z
  {
    if |shares| == 0 then []
    else
      assert forall sh :: sh in shares <==> sh == shares[0] || sh in shares[1..];
      [shares[0].zone] + ZoneIds(shares[1..])
  }

  /** The store's share fetch succeeds and one of its shares has the zone. */
  predicate HoldsZone(store: PersistentStore, zone: ZoneId) {
    store.shares.Success? && zone in ZoneIds(store.shares.value)
  }

  /**
   * `CKShare.persistentStore`: the private store when its fetched shares include the share's
   * zone (the user owns the share), else the shared store when its fetched shares do (the user
   * participates), else nothing.  A store whose fetch throws is passed over.
   */
  function ShareStore(stores: Stores, share: Share): (r: Option<StoreKind>)
    ensures r == Some(PrivateStore) <==> HoldsZone(stores.privateStore, share.zone)
    ensures r == Some(SharedStore) <==>
      !HoldsZone(stores.privateStore, share.zone) && HoldsZone(stores.sharedStore, share.zone)
    ensures r.None? <==>
      !HoldsZone(stores.privateStore, share.zone) && !HoldsZone(stores.sharedStore, share.zone)
  {
    if stores.privateStore.shares.Success? && share.zone in ZoneIds(stores.privateStore.shares.value) then
      Some(PrivateStore)
    else if stores.sharedStore.shares.Success? && share.zone in ZoneIds(stores.sharedStore.shares.value) then
      Some(SharedStore)
    else None
  }

  /**
   * The private store wins: a share fetched from the private store resolves to the private store
   * even if the shared store also lists its zone, and a share fetched from the shared store
   * resolves to the shared store exactly when no private share has its zone.
   */
  lemma ShareStoreOfFetchedShare(stores: Stores, share: Share)
    ensures stores.privateStore.shares.Success? && share in stores.privateStore.shares.value ==>
      ShareStore(stores, share) == Some(PrivateStore)
    ensures stores.sharedStore.shares.Success? && share in stores.sharedStore.shares.value ==>
      (ShareStore(stores, share) == Some(SharedStore) <==> !HoldsZone(stores.privateStore, share.zone))
  {
  }

  // ---------------------------------------------------------------------------------------------
  // Looking shares up

  /** The first share with the title, in order. */
  function FirstWithTitle(shares: seq<Share>, title: string): (r: Option<Share>)
    ensures r.Some? ==> r.value in shares && r.value.title == title
    ensures r.Some? ==>
      exists i :: 0 <= i < |shares| && shares[i] == r.value && forall j :: 0 <= j < i ==> shares[j].title != title
    ensures r.None? <==> forall sh :: sh in shares ==> sh.title != title
  {
    if |shares| == 0 then None
    else if shares[0].title == title then Some(shares[0])
    else
      assert forall sh :: sh in shares <==> sh == shares[0] || sh in shares[1..];
      var r := FirstWithTitle(shares[1..], title);
      assert r.Some? ==>
        exists i :: 0 <= i < |shares| && shares[i] == r.value && forall j :: 0 <= j < i ==> shares[j].title != title
      by {
        if r.Some? {
          var i :| 0 <= i < |shares[1..]| && shares[1..][i] == r.value &&
            forall j :: 0 <= j < i ==> shares[1..][j].title != title;
          assert shares[i + 1] == r.value;
          forall j | 0 <= j < i + 1
            ensures shares[j].title != title
          {
            if j > 0 {
              assert shares[j] == shares[1..][j - 1];
            }
          }
        }
      }
      r
  }

  /** The shares of both stores, private first, as `fetchShares(in:)` returns them. */
  function AllShares(stores: Stores): Result<seq<Share>, CloudError>
  {
    FetchShares([stores.privateStore, stores.sharedStore])
  }

  /**
   * `share(with:)`: the first share with that title, private-store shares before shared-store
   * ones; nothing when the fetch fails or no share carries the title.
   */
  function ShareWithTitle(stores: Stores, title: string): (r: Option<Share>)
    ensures r.Some? ==> r.value.title == title
    ensures r.Some? ==> stores.privateStore.shares.Success? && stores.sharedStore.shares.Success?
    ensures r.Some? ==>
      (r.value in stores.privateStore.shares.value || r.value in stores.sharedStore.shares.value)
    ensures r.Some? && r.value !in stores.privateStore.shares.value ==>
      forall sh :: sh in stores.privateStore.shares.value ==> sh.title != title
    ensures r.Some? ==>
      var all := stores.privateStore.shares.value + stores.sharedStore.shares.value;
      exists i :: 0 <= i < |all| && all[i] == r.value && forall j :: 0 <= j < i ==> all[j].title != title
    ensures r.None? <==>
      || stores.privateStore.shares.Failure? || stores.sharedStore.shares.Failure?
      || (forall sh :: sh in stores.privateStore.shares.value + stores.sharedStore.shares.value ==> sh.title != title)
  {
    FetchSharesOfBothStores(stores);
    var shares := AllShares(stores);
    if shares.Failure? then None
    else
      var r := FirstWithTitle(shares.value, title);
      assert r.Some? && r.value !in stores.privateStore.shares.value ==>
        forall sh :: sh in stores.privateStore.shares.value ==> sh.title != title by {
        if r.Some? && r.value !in stores.privateStore.shares.value {
          var priv := stores.privateStore.shares.value;
          var i :| 0 <= i < |shares.value| && shares.value[i] == r.value &&
            forall j :: 0 <= j < i ==> shares.value[j].title != title;
          assert i >= |priv|;
          forall sh | sh in priv
            ensures sh.title != title
          {
            var j :| 0 <= j < |priv| && priv[j] == sh;
            assert shares.value[j] == sh;
          }
        }
      }
      r
  }

  /**
   * `shareTitles()`: the title of every share, private store first and in fetch order; the empty
   * list when the fetch fails.
   */
  function ShareTitles(stores: Stores): (r: seq<string>)
    ensures AllShares(stores).Failure? ==> r == []
    ensures AllShares(stores).Success? ==>
      |r| == |AllShares(stores).value| && forall i :: 0 <= i < |r| ==> r[i] == AllShares(stores).value[i].title
  {
    match AllShares(stores)
    case Failure(_) => []
    case Success(shares) => seq(|shares|, i requires 0 <= i < |shares| => shares[i].title)
  }

  /**
   * A title is listed exactly when looking it up finds a share.  Titles are stored fields here, so
   * each share's title reads the same every time; the source only guarantees that for shares
   * with a creation date.
   */
  lemma TitleListedIffFound(stores: Stores, title: string)
    ensures title in ShareTitles(stores) <==> ShareWithTitle(stores, title).Some?
  {
    FetchSharesOfBothStores(stores);
    var all := AllShares(stores);
    if all.Success? {
      var titles := ShareTitles(stores);
      if title in titles {
        var i :| 0 <= i < |titles| && titles[i] == title;
        assert all.value[i] in all.value;
      }
      var found := ShareWithTitle(stores, title);
      if found.Some? {
        var sh := found.value;
        assert sh in all.value;
        var i :| 0 <= i < |all.value| && all.value[i] == sh;
        assert titles[i] == title;
      }
    }
  }

  // ---------------------------------------------------------------------------------------------
  // Configuring and creating shares

  /** `configure(share:with:)`: the system title becomes the default; nothing else changes. */
  function Configure(share: Share): (r: Share)
    ensures r.systemTitle == Some(DefaultShareTitle)
    ensures r == share.(systemTitle := r.systemTitle)
  {
    share.(systemTitle := Some(DefaultShareTitle))
  }

  /**
   * `createNewShare(unsharedPhoto:)`: the share the container creates, configured; nothing when
   * the container's `share(_:to:)` throws.
   */
  function CreateNewShare(reply: Result<Share, CloudError>): (r: Option<Share>)
    ensures r.Some? <==> reply.Success?
    ensures r.Some? ==> r.value == Configure(reply.value)
  {
    match reply
    case Failure(_) => None
    case Success(share) => Some(Configure(share))
  }

  // ---------------------------------------------------------------------------------------------
  // Sharing an object

  /** An object id the container hands back, with the name of its entity. */
  datatype ObjectRef = ObjectRef(id: ObjectId, entity: string)

  /**
   * The reply of the container's `share(_:to:)`: the moved object ids, the share, the error.  The
   * source hands back a set of ids, whose array form has no defined order; the model takes them
   * in some order, and every property stated here holds whatever that order is.
   */
  datatype ShareReply = ShareReply(objectIDs: Option<seq<ObjectRef>>, share: Option<Share>, error: Option<CloudError>)

  /** What `shareObject` does: the graph afterwards, the share it persists, the completion. */
  datatype ShareOutcome = ShareOutcome(graph: Graph, persisted: Option<Share>, completion: Completion)

  /** The ids of the Tag objects among the moved objects, in order; none when there is no list. */
  function TagIds(objectIDs: Option<seq<ObjectRef>>): (r: seq<ObjectId>)
    ensures objectIDs.None? ==> r == []
    ensures forall id :: id in r <==>
      objectIDs.Some? && exists o :: o in objectIDs.value && o.entity == TagEntity && o.id == id
  {
    if objectIDs.None? then [] else TagRefs(objectIDs.value)
  }

  function TagRefs(refs: seq<ObjectRef>): (r: seq<ObjectId>)
    ensures forall id :: id in r <==> exists o :: o in refs && o.entity == TagEntity && o.id == id
  {
    if |refs| == 0 then []
    else
      assert forall o :: o in refs <==> o == refs[0] || o in refs[1..];
      (if refs[0].entity == TagEntity then [refs[0].id] else []) + TagRefs(refs[1..])
  }

  /** The container reported an error or no share. */
  predicate SharingFailed(reply: ShareReply) {
    reply.error.Some? || reply.share.None?
  }

  /**
   * `shareObject(_:to:completionHandler:)`.  The container's reply and the reply of
   * `persistUpdatedShare` are parameters.  `g` is the graph as `share(_:to:)` leaves it: joining
   * an existing share has already moved the object graph into the share's record zone, so every
   * moved tag's zone is the share's zone, and that is where duplicates are looked for.  The
   * failure branch force-unwraps the error to print it, so a reply with neither a share nor an
   * error would trap; callers never receive one.
   */
  function ShareObject(g: Graph, existingShare: Option<Share>, reply: ShareReply, persistReply: Completion): (r: ShareOutcome)
    requires reply.error.Some? || reply.share.Some?
    ensures SharingFailed(reply) ==>
      r == ShareOutcome(g, None, Completion(reply.share, reply.error))
    ensures !SharingFailed(reply) ==> r.completion == persistReply && r.persisted.Some?
    ensures !SharingFailed(reply) && existingShare.None? ==>
      r.graph == g && r.persisted == Some(Configure(reply.share.value))
    ensures !SharingFailed(reply) && existingShare.Some? ==>
      && r.persisted == reply.share
      && r.graph == g.(tags := r.graph.tags)
      && (TagIds(reply.objectIDs) == [] ==> r.graph == g)
  {
    if SharingFailed(reply) then ShareOutcome(g, None, Completion(reply.share, reply.error))
    else
      var share := reply.share.value;
      if existingShare.Some? then
        var ids := TagIds(reply.objectIDs);
        var g1 := if |ids| > 0 then DeduplicateAndWait(g, ids) else g;
        ShareOutcome(g1, Some(share), persistReply)
      else
        ShareOutcome(g, Some(Configure(share)), persistReply)
  }

  /**
   * Adding to an existing share deduplicates exactly the moved tags: each of them is settled
   * afterwards (at most one tag per its name and zone), tags already settled stay so, every row
   * outside the moved tags' groups is kept and no row appears outside them, no group is emptied
   * or loses a photo, and a valid graph stays valid.
   */
  lemma ShareObjectSettlesMovedTags(g: Graph, existingShare: Share, reply: ShareReply, persistReply: Completion)
    requires !SharingFailed(reply)
    requires UniqueIds(g.tags)
    ensures var r := ShareObject(g, Some(existingShare), reply, persistReply);
      && UniqueIds(r.graph.tags)
      && (forall id :: id in TagIds(reply.objectIDs) ==> Settled(r.graph.tags, id))
      && (forall other :: Settled(g.tags, other) ==> Settled(r.graph.tags, other))
      && (forall t :: t in g.tags && OutsideCandidateGroups(g.tags, TagIds(reply.objectIDs), t) ==> t in r.graph.tags)
      && (forall t :: t in g.tags ==> GroupKept(r.graph.tags, t))
      && (forall t :: t in r.graph.tags ==> t in g.tags || !OutsideCandidateGroups(g.tags, TagIds(reply.objectIDs), t))
      && (Valid(g) ==> Valid(r.graph))
  {
    var ids := TagIds(reply.objectIDs);
    var r := ShareObject(g, Some(existingShare), reply, persistReply);
    if |ids| > 0 {
      DeduplicateAndWaitSettles(g, ids);
      if Valid(g) {
        DeduplicateAndWaitValid(g, ids);
      }
      forall t | t in g.tags && OutsideCandidateGroups(g.tags, ids, t)
        ensures t in r.graph.tags
      {
        DeduplicateAndWaitKeepsOthers(g, ids, t);
      }
      forall t | t in g.tags
        ensures GroupKept(r.graph.tags, t)
      {
        DeduplicateAndWaitKeepsGroups(g, ids, t);
      }
      forall t | t in r.graph.tags
        ensures t in g.tags || !OutsideCandidateGroups(g.tags, ids, t)
      {
        DeduplicateAndWaitOnlyMerges(g, ids, t);
      }
    } else {
      forall t | t in g.tags
        ensures GroupKept(r.graph.tags, t)
      {
        assert t in r.graph.tags;
      }
    }
  }

  // ---------------------------------------------------------------------------------------------
  // Participants

  /** The identities of a share's participants, in order. */
  function Identities(ps: seq<Participant>): (r: seq<string>)
    ensures |r| == |ps|
    ensures forall i :: 0 <= i < |ps| ==> r[i] == ps[i].identity
  {
    seq(|ps|, i requires 0 <= i < |ps| => ps[i].identity)
  }

  /** No two participants of the share have the same identity. */
  predicate UniqueIdentities(ps: seq<Participant>) {
    forall i, j :: 0 <= i < j < |ps| ==> ps[i].identity != ps[j].identity
  }

  /**
   * `CKShare.addParticipant(_:)`: a participant whose identity is already in the share replaces
   * that entry in place; otherwise it is appended.
   */
  function AddToShare(share: Share, p: Participant): (r: Share)
    ensures r == share.(participants := r.participants)
    ensures p in r.participants
    ensures p.identity in Identities(share.participants) ==> |r.participants| == |share.participants|
    ensures p.identity !in Identities(share.participants) ==> r.participants == share.participants + [p]
    ensures forall q :: q in share.participants && q.identity != p.identity ==> q in r.participants
    ensures forall q :: q in r.participants ==> q == p || q in share.participants
    ensures UniqueIdentities(share.participants) ==> UniqueIdentities(r.participants)
  {
    var ps := share.participants;
    var ids := Identities(ps);
    if p.identity in ids then
      var r := share.(participants := seq(|ps|, i requires 0 <= i < |ps| => if ps[i].identity == p.identity then p else ps[i]));
      assert forall q :: q in share.participants && q.identity != p.identity ==> q in r.participants by {
        forall q | q in share.participants && q.identity != p.identity
          ensures q in r.participants
        {
          var i :| 0 <= i < |ps| && ps[i] == q;
          assert r.participants[i] == q;
        }
      }
      var k :| 0 <= k < |ids| && ids[k] == p.identity;
      assert r.participants[k] == p;
      r
    else
      var r := share.(participants := ps + [p]);
      assert UniqueIdentities(ps) ==> UniqueIdentities(r.participants) by {
        if UniqueIdentities(ps) {
          forall i, j | 0 <= i < j < |r.participants|
            ensures r.participants[i].identity != r.participants[j].identity
          {
            if j == |ps| {
              assert ids[i] == ps[i].identity;
            }
          }
        }
      }
      r
  }

  /** `CKShare.removeParticipant(_:)`: every entry with the participant's identity leaves the share. */
  function RemoveFromShare(share: Share, p: Participant): (r: Share)
    ensures r == share.(participants := r.participants)
    ensures forall q :: q in r.participants <==> q in share.participants && q.identity != p.identity
    ensures |r.participants| <= |share.participants|
  {
    share.(participants := WithoutIdentity(share.participants, p.identity))
  }

  function WithoutIdentity(ps: seq<Participant>, identity: string): (r: seq<Participant>)
    ensures forall q :: q in r <==> q in ps && q.identity != identity
    ensures |r| <= |ps|
    ensures identity !in Identities(ps) ==> r == ps
  {
    if |ps| == 0 then []
    else
      assert forall q :: q in ps <==> q == ps[0] || q in ps[1..];
      var rest := WithoutIdentity(ps[1..], identity);
      IdentitiesTail(ps, identity);
      if ps[0].identity == identity then rest
      else
        assert ps == [ps[0]] + ps[1..];
        [ps[0]] + rest
  }

  /** A first entry with another identity stays first. */
  lemma WithoutIdentityKeepsHead(x: Participant, rest: seq<Participant>, identity: string)
    requires x.identity != identity
    ensures WithoutIdentity([x] + rest, identity) == [x] + WithoutIdentity(rest, identity)
  {
    assert ([x] + rest)[1..] == rest;
  }

  /** An identity absent from a list of participants is absent from its tail. */
  lemma IdentitiesTail(ps: seq<Participant>, identity: string)
    requires |ps| > 0
    ensures identity !in Identities(ps) ==> identity !in Identities(ps[1..])
  {
    if identity in Identities(ps[1..]) {
      var i :| 0 <= i < |ps[1..]| && Identities(ps[1..])[i] == identity;
      assert Identities(ps)[i + 1] == identity;
    }
  }

  /** Adding a participant who was not in the share and then removing them gives the share back. */
  lemma RemoveUndoesAdd(share: Share, p: Participant)
    requires p.identity !in Identities(share.participants)
    ensures RemoveFromShare(AddToShare(share, p), p) == share
  {
    var added := AddToShare(share, p);
    assert added.participants == share.participants + [p];
    WithoutIdentityAppend(share.participants, p);
  }

  lemma {:induction false} WithoutIdentityAppend(ps: seq<Participant>, p: Participant)
    requires p.identity !in Identities(ps)
    ensures WithoutIdentity(ps + [p], p.identity) == ps
  {
    if |ps| == 0 {
      assert [p][1..] == [];
    } else {
      var x, tail := ps[0], ps[1..];
      assert x.identity != p.identity by {
        assert Identities(ps)[0] == x.identity;
      }
      IdentitiesTail(ps, p.identity);
      calc {
        WithoutIdentity(ps + [p], p.identity);
        { assert ps + [p] == [x] + (tail + [p]); }
        WithoutIdentity([x] + (tail + [p]), p.identity);
        { WithoutIdentityKeepsHead(x, tail + [p], p.identity); }
        [x] + WithoutIdentity(tail + [p], p.identity);
        { WithoutIdentityAppend(tail, p); }
        [x] + tail;
      }
    }
  }

  /** Adding the same participant twice is adding it once. */
  lemma AddToShareIdempotent(share: Share, p: Participant)
    ensures AddToShare(AddToShare(share, p), p) == AddToShare(share, p)
  {
    var once := AddToShare(share, p);
    var ps := once.participants;
    assert p.identity in Identities(ps) by {
      var i :| 0 <= i < |ps| && ps[i] == p;
      assert Identities(ps)[i] == p.identity;
    }
    var twice := AddToShare(once, p);
    assert twice.participants == ps by {
      forall i | 0 <= i < |ps|
        ensures twice.participants[i] == ps[i]
      {
        if ps[i].identity == p.identity && ps[i] != p {
          ParticipantWithIdentityIsP(share, p, i);
        }
      }
    }
  }

  /** After an add, the only entry carrying the participant's identity is the participant itself. */
  lemma ParticipantWithIdentityIsP(share: Share, p: Participant, i: nat)
    requires i < |AddToShare(share, p).participants|
    requires AddToShare(share, p).participants[i].identity == p.identity
    ensures AddToShare(share, p).participants[i] == p
  {
  }

  /** The reply of `fetchParticipants(matching:into:)`: the matched participants and the error. */
  datatype LookupReply = LookupReply(results: Option<seq<Participant>>, error: Option<CloudError>)

  /** What a participant operation does: the share object afterwards, what it persists, the completion. */
  datatype ParticipantOutcome = ParticipantOutcome(share: Share, persisted: Option<Share>, completion: Completion)

  /** The lookup found somebody and reported no error. */
  predicate LookupSucceeded(lookup: LookupReply) {
    lookup.results.Some? && |lookup.results.value| > 0 && lookup.error.None?
  }

  /**
   * `addParticipant(emailAddress:permission:share:completionHandler:)`.  On a failed lookup the
   * completion gets the untouched share and the lookup's error, and nothing is persisted.
   * Otherwise the first match joins the share as a private user with the requested permission,
   * the share is persisted to the private store, and the completion gets the persist reply.
   */
  function AddParticipant(share: Share, permission: Permission, lookup: LookupReply, persistReply: Completion): (r: ParticipantOutcome)
    ensures !LookupSucceeded(lookup) ==>
      r == ParticipantOutcome(share, None, Completion(Some(share), lookup.error))
    ensures LookupSucceeded(lookup) ==>
      var joined := lookup.results.value[0].(permission := permission, role := PrivateUser);
      && r.persisted == Some(r.share)
      && r.completion == persistReply
      && r.share == share.(participants := r.share.participants)
      && joined in r.share.participants
      && (forall q :: q in r.share.participants ==> q == joined || q in share.participants)
      && (forall q :: q in share.participants && q.identity != joined.identity ==> q in r.share.participants)
      && (UniqueIdentities(share.participants) ==> UniqueIdentities(r.share.participants))
  {
    if !LookupSucceeded(lookup) then ParticipantOutcome(share, None, Completion(Some(share), lookup.error))
    else
      var participant := lookup.results.value[0].(permission := permission, role := PrivateUser);
      var updated := AddToShare(share, participant);
      ParticipantOutcome(updated, Some(updated), persistReply)
  }

  /** The removal loop of `deleteParticipant`, one participant after the other. */
  function RemoveAll(share: Share, participants: seq<Participant>): (r: Share)
    decreases |participants|
    ensures r == share.(participants := r.participants)
    ensures forall q :: q in r.participants <==>
      q in share.participants && q.identity !in Identities(participants)
  {
    if |participants| == 0 then share
    else
      var r := RemoveAll(RemoveFromShare(share, participants[0]), participants[1..]);
      assert forall id :: id in Identities(participants) <==>
        id == participants[0].identity || id in Identities(participants[1..]) by {
        forall id
          ensures id in Identities(participants) <==> id == participants[0].identity || id in Identities(participants[1..])
        {
          if id in Identities(participants[1..]) {
            var i :| 0 <= i < |participants[1..]| && Identities(participants[1..])[i] == id;
            assert Identities(participants)[i + 1] == id;
          }
          if id in Identities(participants) && id != participants[0].identity {
            var i :| 0 <= i < |participants| && Identities(participants)[i] == id;
            assert Identities(participants[1..])[i - 1] == id;
          }
        }
      }
      r
  }

  /**
   * `deleteParticipant(_:share:completionHandler:)`: every listed participant leaves the share,
   * everybody else stays, the share is persisted to the private store and the completion gets
   * the persist reply.
   */
  function DeleteParticipants(share: Share, participants: seq<Participant>, persistReply: Completion): (r: ParticipantOutcome)
    ensures r.persisted == Some(r.share) && r.completion == persistReply
    ensures r.share == share.(participants := r.share.participants)
    ensures forall q :: q in r.share.participants <==>
      q in share.participants && q.identity !in Identities(participants)
  {
    var updated := RemoveAll(share, participants);
    ParticipantOutcome(updated, Some(updated), persistReply)
  }

  /**
   * A participant added by a successful lookup and then deleted leaves the share as it was, when
   * nobody with that identity was in it before.
   */
  lemma DeleteUndoesAddParticipant(share: Share, permission: Permission, lookup: LookupReply,
                                   persistReply: Completion, persistReply2: Completion)
    requires LookupSucceeded(lookup)
    requires lookup.results.value[0].identity !in Identities(share.participants)
    ensures var added := AddParticipant(share, permission, lookup, persistReply).share;
      DeleteParticipants(added, [lookup.results.value[0]], persistReply2).share == share
  {
    var p := lookup.results.value[0].(permission := permission, role := PrivateUser);
    var added := AddParticipant(share, permission, lookup, persistReply).share;
    assert added == AddToShare(share, p);
    RemoveUndoesAdd(share, p);
    assert RemoveAll(added, [lookup.results.value[0]]) == RemoveAll(RemoveFromShare(added, p), []);
  }

  // ---------------------------------------------------------------------------------------------
  // Acceptance status

  /** The raw value of each acceptance status. */
  function RawValue(s: AcceptanceStatus): (r: int)
    ensures 0 <= r < 4
  {
    match s
    case Unknown => 0
    case Pending => 1
    case Accepted => 2
    case Removed => 3
  }

  /** The table `stringValue` indexes with the raw value. */
  const StatusNames: seq<string> := ["Unknown", "Pending", "Accepted", "Removed"]

  /** `ParticipantAcceptanceStatus.stringValue`: the table entry at the raw value, which is always in 0..3. */
  function StringValue(s: AcceptanceStatus): (r: string)
    ensures r in StatusNames
  {
    StatusNames[RawValue(s)]
  }

  /** The status a name stands for, if any. */
  function ParseStatus(name: string): (r: Option<AcceptanceStatus>)
    ensures r.Some? ==> name in StatusNames
  {
    if name == "Unknown" then Some(Unknown)
    else if name == "Pending" then Some(Pending)
    else if name == "Accepted" then Some(Accepted)
    else if name == "Removed" then Some(Removed)
    else None
  }

  /** Every status's name reads back as that status, so distinct statuses have distinct names. */
  lemma StringValueRoundTrip(s: AcceptanceStatus)
    ensures ParseStatus(StringValue(s)) == Some(s)
  {
  }

  /** Every name in the table reads back as the status whose name it is. */
  lemma ParseStatusRoundTrip(name: string)
    requires name in StatusNames
    ensures ParseStatus(name).Some? && StringValue(ParseStatus(name).value) == name
  {
  }

  // ---------------------------------------------------------------------------------------------
  // Purging a share's zone

  /**
   * `purgeObjectsAndRecords(with:in:)`: the store and zone it asks the container to purge.  The
   * store is the one given, else the store the share lives in; with neither nothing is purged.
   */
  function PurgeTarget(stores: Stores, share: Share, store: Option<StoreKind>): (r: Option<(StoreKind, ZoneId)>)
    ensures r.Some? ==> r.value.1 == share.zone
    ensures store.Some? ==> r == Some((store.value, share.zone))
    ensures store.None? ==> (r.None? <==> ShareStore(stores, share).None?)
    ensures store.None? && r.Some? ==> r.value.0 == ShareStore(stores, share).value
  {
    match store
    case Some(kind) => Some((kind, share.zone))
    case None =>
      match ShareStore(stores, share)
      case None => None
      case Some(kind) => Some((kind, share.zone))
  }
}
