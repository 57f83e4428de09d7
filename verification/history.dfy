/**
 * Persistent history processing (PersistenceController+History.swift).  A remote-change
 * notification names a store; the app fetches that store's history after the last token it
 * saved for the store, leaving out what the app wrote itself, posts the transactions to the UI,
 * moves the store's token to the last transaction, and, for the private store only, hands the
 * newly inserted tags to deduplication.
 */
module History {
  import opened Wrappers
  import opened Schema
  import opened Deduplicate
  import opened CoreDataHelper

  /** The UserDefaults entries the app keeps its history tokens in. */
  type Defaults = map<string, Token>

  /** Per-store history transactions, keyed by store identifier, in commit order. */
  type Ledger = map<string, seq<Transaction>>

  /** The `.cdcksStoreDidChange` notification: the store and the fetched transactions. */
  datatype Event = StoreDidChange(storeUUID: string, transactions: seq<Transaction>)

  /** What history processing reads and writes: the tokens, the object graph, the posted events. */
  datatype HistoryState = HistoryState(defaults: Defaults, graph: Graph, events: seq<Event>)

  /** The key a store's token is saved under: "HistoryToken" followed by the store UUID. */
  function TokenKey(storeUUID: string): string
  {
    "HistoryToken" + storeUUID
  }

  /** Two stores never share a token key. */
  lemma TokenKeyInjective(a: string, b: string)
    requires TokenKey(a) == TokenKey(b)
    ensures a == b
  {
    var prefix := "HistoryToken";
    assert a == TokenKey(a)[|prefix|..];
    assert b == TokenKey(b)[|prefix|..];
  }

  /** `historyToken(with:)`: the saved token of the store, or None to fetch from the beginning. */
  function HistoryToken(d: Defaults, storeUUID: string): (r: Option<Token>)
    ensures r.Some? <==> TokenKey(storeUUID) in d
    ensures r.Some? ==> r.value == d[TokenKey(storeUUID)]
  {
    var key := TokenKey(storeUUID);
    if key in d then Some(d[key]) else None
  }

  /** `updateHistoryToken(with:newToken:)`: only the entry of that store changes. */
  function UpdateHistoryToken(d: Defaults, storeUUID: string, token: Token): (r: Defaults)
    ensures HistoryToken(r, storeUUID) == Some(token)
    ensures forall other :: other != storeUUID ==> HistoryToken(r, other) == HistoryToken(d, other)
  {
    var r := d[TokenKey(storeUUID) := token];
    assert forall other :: other != storeUUID ==> TokenKey(other) != TokenKey(storeUUID) by {
      forall other | TokenKey(other) == TokenKey(storeUUID)
        ensures other == storeUUID
      {
        TokenKeyInjective(other, storeUUID);
      }
    }
    r
  }

  /** `storeRemoteChange(_:)` accepts only the identifiers of the two stores. */
  predicate KnownStore(stores: Stores, storeUUID: string) {
    storeUUID in [stores.privateStore.identifier, stores.sharedStore.identifier]
  }

  /**
   * The request's `affectedStores`: the private store for its identifier, else the shared store
   * for its identifier; any other identifier leaves the request unscoped, so both stores answer.
   */
  function AffectedStores(stores: Stores, storeUUID: string): (r: seq<string>)
    ensures KnownStore(stores, storeUUID) ==> r == [storeUUID]
  {
    if stores.privateStore.identifier == storeUUID then [stores.privateStore.identifier]
    else if stores.sharedStore.identifier == storeUUID then [stores.sharedStore.identifier]
    else [stores.privateStore.identifier, stores.sharedStore.identifier]
  }

  /** The fetch predicate: after the token (if any) and `author != "app"`. */
  predicate Wanted(tx: Transaction, after: Option<Token>) {
    tx.author != Some(AppAuthor) && (after.None? || after.value < tx.token)
  }

  /** The wanted transactions of one store, in commit order. */
  function FetchFrom(txs: seq<Transaction>, after: Option<Token>): (r: seq<Transaction>)
    ensures forall tx :: tx in r <==> tx in txs && Wanted(tx, after)
  {
    if |txs| == 0 then []
    else
      assert forall tx :: tx in txs <==> tx == txs[0] || tx in txs[1..];
      var rest := FetchFrom(txs[1..], after);
      if Wanted(txs[0], after) then [txs[0]] + rest else rest
  }

  /** `fetchHistory(after:)` with the author predicate, over the stores in scope. */
  function FetchHistory(ledger: Ledger, scope: seq<string>, after: Option<Token>): (r: seq<Transaction>)
    ensures forall tx :: tx in r <==>
      (exists s :: s in scope && s in ledger && tx in ledger[s]) && Wanted(tx, after)
  {
    if |scope| == 0 then []
    else
      var here := if scope[0] in ledger then FetchFrom(ledger[scope[0]], after) else [];
      assert forall s :: s in scope <==> s == scope[0] || s in scope[1..];
      here + FetchHistory(ledger, scope[1..], after)
  }

  /** The object ids of the Tag inserts among some changes, in order. */
  function TagInserts(changes: seq<Change>): (r: seq<ObjectId>)
    ensures forall id :: id in r <==>
      exists ch :: ch in changes && ch.entity == TagEntity && ch.changeType == Insert && ch.objectId == id
  {
    if |changes| == 0 then []
    else
      assert forall ch :: ch in changes <==> ch == changes[0] || ch in changes[1..];
      var ch := changes[0];
      (if ch.entity == TagEntity && ch.changeType == Insert then [ch.objectId] else []) + TagInserts(changes[1..])
  }

  /** The dedup candidates: Tag inserts of every transaction that has changes, in transaction order. */
  function NewTagIds(txs: seq<Transaction>): (r: seq<ObjectId>)
    ensures forall id :: id in r <==>
      exists tx, ch :: tx in txs && tx.changes.Some? && ch in tx.changes.value &&
        ch.entity == TagEntity && ch.changeType == Insert && ch.objectId == id
  {
    if |txs| == 0 then []
    else
      assert forall tx :: tx in txs <==> tx == txs[0] || tx in txs[1..];
      (if txs[0].changes.Some? then TagInserts(txs[0].changes.value) else []) + NewTagIds(txs[1..])
  }

  /** The candidates of a longer batch are those of its parts, in order. */
  lemma {:induction false} NewTagIdsAppend(a: seq<Transaction>, b: seq<Transaction>)
    ensures NewTagIds(a + b) == NewTagIds(a) + NewTagIds(b)
  {
    if |a| > 0 {
      assert (a + b)[1..] == a[1..] + b;
      NewTagIdsAppend(a[1..], b);
    } else {
      assert a + b == b;
    }
  }

  /**
   * `performHistoryProcessing(storeUUID:)`.  `fetchFails` is the history request failing or
   * returning no transaction list.
   */
  function PerformHistoryProcessing(st: HistoryState, stores: Stores, ledger: Ledger,
                                    storeUUID: string, fetchFails: bool): (r: HistoryState)
    ensures fetchFails ==> r == st
    ensures !fetchFails ==> |r.events| == |st.events| + 1 && r.events[..|st.events|] == st.events
    ensures r.graph == st.graph.(tags := r.graph.tags)
  {
    if fetchFails then st
    else
      var txs := FetchHistory(ledger, AffectedStores(stores, storeUUID), HistoryToken(st.defaults, storeUUID));
      var events := st.events + [StoreDidChange(storeUUID, txs)];
      var defaults := if |txs| > 0 then UpdateHistoryToken(st.defaults, storeUUID, txs[|txs| - 1].token)
                      else st.defaults;
      if |txs| == 0 || storeUUID != stores.privateStore.identifier then HistoryState(defaults, st.graph, events)
      else
        var ids := NewTagIds(txs);
        if |ids| == 0 then HistoryState(defaults, st.graph, events)
        else HistoryState(defaults, DeduplicateAndWait(st.graph, ids), events)
  }

  /**
   * `storeRemoteChange(_:)`: a notification without a known store UUID is ignored; one naming a
   * known store runs history processing for that store.
   */
  function StoreRemoteChange(st: HistoryState, stores: Stores, ledger: Ledger,
                             storeUUID: Option<string>, fetchFails: bool): (r: HistoryState)
    ensures storeUUID.None? || !KnownStore(stores, storeUUID.value) ==> r == st
    ensures storeUUID.Some? && KnownStore(stores, storeUUID.value) ==>
      r == PerformHistoryProcessing(st, stores, ledger, storeUUID.value, fetchFails)
  {
    if storeUUID.Some? && KnownStore(stores, storeUUID.value)
    then PerformHistoryProcessing(st, stores, ledger, storeUUID.value, fetchFails)
    else st
  }

  /**
   * A notification posts an event exactly when it names a known store and the fetch succeeds;
   * the event carries that store's new transactions.
   */
  lemma RemoteChangePostsEvent(st: HistoryState, stores: Stores, ledger: Ledger,
                               storeUUID: Option<string>, fetchFails: bool)
    ensures var r := StoreRemoteChange(st, stores, ledger, storeUUID, fetchFails);
      |r.events| == |st.events| + 1 <==> storeUUID.Some? && KnownStore(stores, storeUUID.value) && !fetchFails
    ensures var r := StoreRemoteChange(st, stores, ledger, storeUUID, fetchFails);
      storeUUID.Some? && KnownStore(stores, storeUUID.value) && !fetchFails ==>
        r.events == st.events + [StoreDidChange(storeUUID.value,
                                   FetchHistory(ledger, [storeUUID.value], HistoryToken(st.defaults, storeUUID.value)))]
  {
    if storeUUID.Some? && KnownStore(stores, storeUUID.value) {
      ProcessingEffect(st, stores, ledger, storeUUID.value, fetchFails);
    }
  }

  /**
   * One processing run for a known store.  A failed fetch changes nothing.  Otherwise exactly one
   * event is posted, even for an empty batch, carrying only transactions of that store not
   * written by the app; the store's token moves to the last transaction only when the batch is
   * non-empty and no other store's token moves; and the graph changes only for a non-empty batch
   * of the private store, where deduplication settles every newly inserted tag, keeps every row
   * outside their groups, adds no row outside them and empties no group.
   */
  lemma ProcessingEffect(st: HistoryState, stores: Stores, ledger: Ledger, storeUUID: string, fetchFails: bool)
    requires KnownStore(stores, storeUUID)
    ensures fetchFails ==> PerformHistoryProcessing(st, stores, ledger, storeUUID, fetchFails) == st
    ensures !fetchFails ==>
      var r := PerformHistoryProcessing(st, stores, ledger, storeUUID, fetchFails);
      var txs := FetchHistory(ledger, [storeUUID], HistoryToken(st.defaults, storeUUID));
      && r.events == st.events + [StoreDidChange(storeUUID, txs)]
      && (forall tx :: tx in txs ==> tx.author != Some(AppAuthor) && storeUUID in ledger && tx in ledger[storeUUID])
      && (|txs| == 0 ==> r.defaults == st.defaults)
      && (|txs| > 0 ==> HistoryToken(r.defaults, storeUUID) == Some(txs[|txs| - 1].token))
      && (forall other :: other != storeUUID ==> HistoryToken(r.defaults, other) == HistoryToken(st.defaults, other))
      && r.graph == st.graph.(tags := r.graph.tags)
      && (|txs| == 0 || storeUUID != stores.privateStore.identifier || |NewTagIds(txs)| == 0 ==> r.graph == st.graph)
      && (UniqueIds(st.graph.tags) && storeUUID == stores.privateStore.identifier ==>
            forall id :: id in NewTagIds(txs) ==> Settled(r.graph.tags, id))
      && (UniqueIds(st.graph.tags) ==>
            && (forall t :: t in st.graph.tags && OutsideCandidateGroups(st.graph.tags, NewTagIds(txs), t) ==> t in r.graph.tags)
            && (forall t :: t in st.graph.tags ==> GroupKept(r.graph.tags, t))
            && (forall t :: t in r.graph.tags ==> t in st.graph.tags || !OutsideCandidateGroups(st.graph.tags, NewTagIds(txs), t)))
  {
    if !fetchFails {
      ProcessingPostsAndMoves(st, stores, ledger, storeUUID);
      ProcessingSettles(st, stores, ledger, storeUUID);
      if UniqueIds(st.graph.tags) {
        ProcessingKeepsTags(st, stores, ledger, storeUUID, fetchFails);
      }
    }
  }

  /** The event and token half of `ProcessingEffect`. */
  lemma ProcessingPostsAndMoves(st: HistoryState, stores: Stores, ledger: Ledger, storeUUID: string)
    requires KnownStore(stores, storeUUID)
    ensures var r := PerformHistoryProcessing(st, stores, ledger, storeUUID, false);
      var txs := FetchHistory(ledger, [storeUUID], HistoryToken(st.defaults, storeUUID));
      && r.events == st.events + [StoreDidChange(storeUUID, txs)]
      && (forall tx :: tx in txs ==> tx.author != Some(AppAuthor) && storeUUID in ledger && tx in ledger[storeUUID])
      && (|txs| == 0 ==> r.defaults == st.defaults)
      && (|txs| > 0 ==> HistoryToken(r.defaults, storeUUID) == Some(txs[|txs| - 1].token))
      && (forall other :: other != storeUUID ==> HistoryToken(r.defaults, other) == HistoryToken(st.defaults, other))
  {
    assert AffectedStores(stores, storeUUID) == [storeUUID];
  }

  /** The graph half of `ProcessingEffect`. */
  lemma ProcessingSettles(st: HistoryState, stores: Stores, ledger: Ledger, storeUUID: string)
    requires KnownStore(stores, storeUUID)
    ensures var r := PerformHistoryProcessing(st, stores, ledger, storeUUID, false);
      var txs := FetchHistory(ledger, [storeUUID], HistoryToken(st.defaults, storeUUID));
      && (|txs| == 0 || storeUUID != stores.privateStore.identifier || |NewTagIds(txs)| == 0 ==> r.graph == st.graph)
      && (UniqueIds(st.graph.tags) && storeUUID == stores.privateStore.identifier ==>
            forall id :: id in NewTagIds(txs) ==> Settled(r.graph.tags, id))
  {
    var txs := FetchHistory(ledger, [storeUUID], HistoryToken(st.defaults, storeUUID));
    assert AffectedStores(stores, storeUUID) == [storeUUID];
    if UniqueIds(st.graph.tags) {
      DeduplicateAndWaitSettles(st.graph, NewTagIds(txs));
    }
  }

  /**
   * The deduplication a processing run starts touches only the groups of the newly inserted tags:
   * every row outside them is kept, no row appears outside them, and no group is emptied or loses
   * a photo.
   */
  lemma ProcessingKeepsTags(st: HistoryState, stores: Stores, ledger: Ledger, storeUUID: string, fetchFails: bool)
    requires KnownStore(stores, storeUUID) && UniqueIds(st.graph.tags)
    ensures var r := PerformHistoryProcessing(st, stores, ledger, storeUUID, fetchFails);
      var txs := FetchHistory(ledger, [storeUUID], HistoryToken(st.defaults, storeUUID));
      && (forall t :: t in st.graph.tags && OutsideCandidateGroups(st.graph.tags, NewTagIds(txs), t) ==> t in r.graph.tags)
      && (forall t :: t in st.graph.tags ==> GroupKept(r.graph.tags, t))
      && (forall t :: t in r.graph.tags ==> t in st.graph.tags || !OutsideCandidateGroups(st.graph.tags, NewTagIds(txs), t))
  {
    var r := PerformHistoryProcessing(st, stores, ledger, storeUUID, fetchFails);
    var txs := FetchHistory(ledger, [storeUUID], HistoryToken(st.defaults, storeUUID));
    var ids := NewTagIds(txs);
    if r.graph == st.graph {
      forall t | t in st.graph.tags
        ensures GroupKept(r.graph.tags, t)
      {
        assert t in r.graph.tags;
      }
    } else {
      assert r.graph == DeduplicateAndWait(st.graph, ids);
      forall t | t in st.graph.tags && OutsideCandidateGroups(st.graph.tags, ids, t)
        ensures t in r.graph.tags
      {
        DeduplicateAndWaitKeepsOthers(st.graph, ids, t);
      }
      forall t | t in st.graph.tags
        ensures GroupKept(r.graph.tags, t)
      {
        DeduplicateAndWaitKeepsGroups(st.graph, ids, t);
      }
      forall t | t in r.graph.tags
        ensures t in st.graph.tags || !OutsideCandidateGroups(st.graph.tags, ids, t)
      {
        DeduplicateAndWaitOnlyMerges(st.graph, ids, t);
      }
    }
  }

  /** Transaction tokens strictly increase along the sequence. */
  predicate Increasing(txs: seq<Transaction>) {
    |txs| <= 1 || ((forall tx :: tx in txs[1..] ==> txs[0].token < tx.token) && Increasing(txs[1..]))
  }

  lemma {:induction false} FetchFromIncreasing(txs: seq<Transaction>, after: Option<Token>)
    requires Increasing(txs)
    ensures Increasing(FetchFrom(txs, after))
  {
    if |txs| > 0 {
      FetchFromIncreasing(txs[1..], after);
      var rest := FetchFrom(txs[1..], after);
      if Wanted(txs[0], after) {
        var r := FetchFrom(txs, after);
        assert r == [txs[0]] + rest;
        assert r[1..] == rest;
        forall tx | tx in rest
          ensures txs[0].token < tx.token
        {
          assert tx in txs[1..];
        }
      }
    }
  }

  lemma {:induction false} LastIsLatest(txs: seq<Transaction>, tx: Transaction)
    requires Increasing(txs) && tx in txs
    ensures tx.token <= txs[|txs| - 1].token
  {
    if tx != txs[0] {
      assert tx in txs[1..];
      LastIsLatest(txs[1..], tx);
      assert txs[1..][|txs[1..]| - 1] == txs[|txs| - 1];
    } else if |txs| > 1 {
      assert txs[|txs| - 1] in txs[1..];
    }
  }

  /** Fetching from a single store is the filter over that store's transactions. */
  lemma FetchHistorySingle(ledger: Ledger, storeUUID: string, after: Option<Token>)
    ensures FetchHistory(ledger, [storeUUID], after)
      == (if storeUUID in ledger then FetchFrom(ledger[storeUUID], after) else [])
  {
    assert FetchHistory(ledger, [storeUUID][1..], after) == [];
  }

  /** After the token of the last wanted transaction of an increasing history nothing is left. */
  lemma NothingAfterLatest(txs: seq<Transaction>, before: Option<Token>)
    requires Increasing(txs)
    requires |FetchFrom(txs, before)| > 0
    ensures var fetched := FetchFrom(txs, before);
      FetchFrom(txs, Some(fetched[|fetched| - 1].token)) == []
  {
    var fetched := FetchFrom(txs, before);
    var last := fetched[|fetched| - 1];
    assert last in fetched;
    FetchFromIncreasing(txs, before);
    var again := FetchFrom(txs, Some(last.token));
    if |again| > 0 {
      var tx := again[0];
      assert tx in again && Wanted(tx, before);
      LastIsLatest(fetched, tx);
    }
  }

  /**
   * Replay is idempotent: when the store's history commits tokens in increasing order, processing
   * the same notification a second time fetches nothing, so it only posts an empty event and
   * leaves the tokens and the graph as the first run left them.
   */
  lemma ReplayIsIdempotent(st: HistoryState, stores: Stores, ledger: Ledger, storeUUID: string)
    requires KnownStore(stores, storeUUID)
    requires storeUUID in ledger ==> Increasing(ledger[storeUUID])
    ensures var r1 := PerformHistoryProcessing(st, stores, ledger, storeUUID, false);
      var r2 := PerformHistoryProcessing(r1, stores, ledger, storeUUID, false);
      && r2.events == r1.events + [StoreDidChange(storeUUID, [])]
      && r2.defaults == r1.defaults
      && r2.graph == r1.graph
  {
    ReplayFetchesNothing(st, stores, ledger, storeUUID);
    QuietRun(PerformHistoryProcessing(st, stores, ledger, storeUUID, false), stores, ledger, storeUUID);
  }

  /** After a run, the store's token sits at its last transaction, so a second fetch is empty. */
  lemma ReplayFetchesNothing(st: HistoryState, stores: Stores, ledger: Ledger, storeUUID: string)
    requires KnownStore(stores, storeUUID)
    requires storeUUID in ledger ==> Increasing(ledger[storeUUID])
    ensures var r1 := PerformHistoryProcessing(st, stores, ledger, storeUUID, false);
      FetchHistory(ledger, [storeUUID], HistoryToken(r1.defaults, storeUUID)) == []
  {
    var r1 := PerformHistoryProcessing(st, stores, ledger, storeUUID, false);
    var before := HistoryToken(st.defaults, storeUUID);
    ProcessingEffect(st, stores, ledger, storeUUID, false);
    FetchHistorySingle(ledger, storeUUID, before);
    FetchHistorySingle(ledger, storeUUID, HistoryToken(r1.defaults, storeUUID));
    if storeUUID in ledger && |FetchFrom(ledger[storeUUID], before)| > 0 {
      NothingAfterLatest(ledger[storeUUID], before);
    }
  }

  /** A run whose fetch is empty posts an empty event and changes nothing else. */
  lemma QuietRun(st: HistoryState, stores: Stores, ledger: Ledger, storeUUID: string)
    requires KnownStore(stores, storeUUID)
    requires FetchHistory(ledger, [storeUUID], HistoryToken(st.defaults, storeUUID)) == []
    ensures var r := PerformHistoryProcessing(st, stores, ledger, storeUUID, false);
      && r.events == st.events + [StoreDidChange(storeUUID, [])]
      && r.defaults == st.defaults
      && r.graph == st.graph
  {
    ProcessingEffect(st, stores, ledger, storeUUID, false);
  }

  /**
   * What the app saves through a task context is never replayed: the transaction carries the
   * author "app", which every history fetch excludes.
   */
  lemma TaskContextWritesAreNeverFetched(g: Graph, edited: Graph, token: Token, changes: seq<Change>,
                                         ledger: Ledger, scope: seq<string>, after: Option<Token>)
    requires Save(NewTaskContext(g).(pending := edited), token, changes, false).written.Some?
    ensures Save(NewTaskContext(g).(pending := edited), token, changes, false).written.value
      !in FetchHistory(ledger, scope, after)
  {
  }
}
