/**
 * The Core Data conveniences of CoreDataHelper.swift: which persistent store holds an object,
 * saving a context, the task context every background operation uses, and the fetch of the
 * shares of several stores.
 */
module CoreDataHelper {
  import opened Wrappers
  import opened Schema
  import opened CloudKit

  datatype StoreKind = PrivateStore | SharedStore

  /**
   * A persistent store as the helpers see it: its identifier, the ids of the objects it holds,
   * and what `fetchShares(in:)` yields for it (Failure when that call throws).
   */
  datatype PersistentStore = PersistentStore(identifier: string, objects: set<ObjectId>,
                                             shares: Result<seq<Share>, CloudError>)

  /** The controller's two stores, mirroring the CloudKit private and shared databases. */
  datatype Stores = Stores(privateStore: PersistentStore, sharedStore: PersistentStore)

  /** A managed object: its id, its entity name, and whether it still has a context. */
  datatype ManagedObject = ManagedObject(id: ObjectId, entity: string, inContext: bool)

  /** The count of a fetch for `self == object` scoped to one store. */
  function CountInStore(store: PersistentStore, obj: ManagedObject): nat
  {
    if obj.id in store.objects then 1 else 0
  }

  /**
   * `NSPersistentStore.contains(manageObject:)`: true exactly when the object has a context and
   * the store-scoped count succeeds and is positive; `countFails` is the count throwing.
   */
  function Contains(store: PersistentStore, obj: ManagedObject, countFails: bool): (r: bool)
    ensures r <==> obj.inContext && !countFails && obj.id in store.objects
  {
    if !obj.inContext then false
    else if countFails then false
    else CountInStore(store, obj) > 0
  }

  /**
   * `NSManagedObject.persistentStore`: the shared store is asked first, then the private one;
   * None when neither contains the object.
   */
  function PersistentStoreOf(stores: Stores, obj: ManagedObject, sharedCountFails: bool,
                             privateCountFails: bool): (r: Option<StoreKind>)
    ensures r == Some(SharedStore) <==> Contains(stores.sharedStore, obj, sharedCountFails)
    ensures r == Some(PrivateStore) <==>
      !Contains(stores.sharedStore, obj, sharedCountFails) && Contains(stores.privateStore, obj, privateCountFails)
    ensures r.None? <==>
      !Contains(stores.sharedStore, obj, sharedCountFails) && !Contains(stores.privateStore, obj, privateCountFails)
    ensures r.Some? ==> obj.inContext
  {
    if Contains(stores.sharedStore, obj, sharedCountFails) then Some(SharedStore)
    else if Contains(stores.privateStore, obj, privateCountFails) then Some(PrivateStore)
    else None
  }

  /**
   * A managed object context: the transaction author it stamps on what it saves, the graph as
   * last saved, and the graph with its unsaved edits.
   */
  datatype Context = Context(author: Option<string>, saved: Graph, pending: Graph)

  /** `hasChanges`. */
  predicate HasChanges(c: Context) {
    c.pending != c.saved
  }

  /** `newTaskContext()`: a fresh background context whose writes are authored by this app. */
  function NewTaskContext(g: Graph): (c: Context)
    ensures c.author == Some(AppAuthor)
    ensures !HasChanges(c) && c.saved == g
  {
    Context(Some(AppAuthor), g, g)
  }

  /** What a save did: the context afterwards and the history transaction it wrote, if any. */
  datatype SaveResult = SaveResult(context: Context, written: Option<Transaction>)

  /**
   * `save(with:)`: saves only when the context has changes; a failing save (`saveFails`) is
   * absorbed and leaves the context as it was, so no error ever reaches the caller.  A save
   * writes one history transaction, with the given token and changes, under the context's author.
   */
  function Save(c: Context, token: Token, changes: seq<Change>, saveFails: bool): (r: SaveResult)
    ensures r.written.Some? <==> HasChanges(c) && !saveFails
    ensures r.written.None? ==> r.context == c
    ensures r.written.Some? ==>
      && r.written.value == Transaction(token, c.author, Some(changes))
      && r.context.saved == c.pending && r.context.pending == c.pending
      && !HasChanges(r.context)
  {
    if !HasChanges(c) then SaveResult(c, None)
    else if saveFails then SaveResult(c, None)
    else SaveResult(c.(saved := c.pending), Some(Transaction(token, c.author, Some(changes))))
  }

  /** Saving again right after a save writes nothing. */
  lemma SaveTwiceWritesOnce(c: Context, t1: Token, t2: Token, ch1: seq<Change>, ch2: seq<Change>,
                            fails1: bool, fails2: bool)
    requires Save(c, t1, ch1, fails1).written.Some?
    ensures Save(Save(c, t1, ch1, fails1).context, t2, ch2, fails2) == SaveResult(Save(c, t1, ch1, fails1).context, None)
  {
  }

  /**
   * `fetchShares(in:)` over several stores: the shares of each store, in store order; the first
   * store whose fetch throws makes the whole call throw that error.
   */
  function FetchShares(stores: seq<PersistentStore>): (r: Result<seq<Share>, CloudError>)
    ensures r.Success? <==> forall i :: 0 <= i < |stores| ==> stores[i].shares.Success?
    ensures r.Success? ==> forall sh :: sh in r.value <==> (exists i :: 0 <= i < |stores| && sh in stores[i].shares.value)
    ensures r.Failure? ==> (exists i :: 0 <= i < |stores| && stores[i].shares == Failure(r.error) &&
                             forall j :: 0 <= j < i ==> stores[j].shares.Success?)
  {
    if |stores| == 0 then Success([])
    else if stores[0].shares.Failure? then Failure(stores[0].shares.error)
    else
      var rest := FetchShares(stores[1..]);
      FetchSharesStep(stores, rest);
      if rest.Failure? then rest else Success(stores[0].shares.value + rest.value)
  }

  /** How the fetch of the first store combines with the fetch of the others. */
  lemma FetchSharesStep(stores: seq<PersistentStore>, rest: Result<seq<Share>, CloudError>)
    requires |stores| > 0 && stores[0].shares.Success?
    requires rest.Success? <==> forall i :: 0 <= i < |stores[1..]| ==> stores[1..][i].shares.Success?
    requires rest.Success? ==> forall sh :: sh in rest.value <==> (exists i :: 0 <= i < |stores[1..]| && sh in stores[1..][i].shares.value)
    requires rest.Failure? ==> (exists i :: 0 <= i < |stores[1..]| && stores[1..][i].shares == Failure(rest.error) &&
                                 forall j :: 0 <= j < i ==> stores[1..][j].shares.Success?)
    ensures rest.Success? <==> forall i :: 0 <= i < |stores| ==> stores[i].shares.Success?
    ensures rest.Success? ==> forall sh :: sh in stores[0].shares.value + rest.value <==>
      (exists i :: 0 <= i < |stores| && sh in stores[i].shares.value)
    ensures rest.Failure? ==> (exists i :: 0 <= i < |stores| && stores[i].shares == Failure(rest.error) &&
                                forall j :: 0 <= j < i ==> stores[j].shares.Success?)
  {
    if rest.Success? {
      forall i | 0 <= i < |stores|
        ensures stores[i].shares.Success?
      {
        if i > 0 {
          assert stores[1..][i - 1] == stores[i];
        }
      }
      forall sh | sh in stores[0].shares.value + rest.value
        ensures exists i :: 0 <= i < |stores| && sh in stores[i].shares.value
      {
        if sh !in stores[0].shares.value {
          var i :| 0 <= i < |stores[1..]| && sh in stores[1..][i].shares.value;
          assert stores[i + 1] == stores[1..][i];
        }
      }
      forall sh | exists i :: 0 <= i < |stores| && sh in stores[i].shares.value
        ensures sh in stores[0].shares.value + rest.value
      {
        var i :| 0 <= i < |stores| && sh in stores[i].shares.value;
        if i > 0 {
          assert stores[1..][i - 1] == stores[i];
        }
      }
    } else {
      var i :| 0 <= i < |stores[1..]| && stores[1..][i].shares == Failure(rest.error) &&
        forall j :: 0 <= j < i ==> stores[1..][j].shares.Success?;
      assert stores[i + 1].shares == Failure(rest.error);
      forall j | 0 <= j < i + 1
        ensures stores[j].shares.Success?
      {
        if j > 0 {
          assert stores[1..][j - 1] == stores[j];
        }
      }
    }
  }

  /** For the two stores of the controller, the fetch is the private shares followed by the shared ones. */
  lemma FetchSharesOfBothStores(stores: Stores)
    ensures var r := FetchShares([stores.privateStore, stores.sharedStore]);
      && (r.Success? <==> stores.privateStore.shares.Success? && stores.sharedStore.shares.Success?)
      && (r.Success? ==> r.value == stores.privateStore.shares.value + stores.sharedStore.shares.value)
      && (stores.privateStore.shares.Failure? ==> r == Failure(stores.privateStore.shares.error))
  {
    var s := [stores.privateStore, stores.sharedStore];
    assert s[1..] == [stores.sharedStore];
    assert s[1..][1..] == [];
    if stores.privateStore.shares.Success? && stores.sharedStore.shares.Success? {
      assert FetchShares(s[1..]) == Success(stores.sharedStore.shares.value + []);
      assert stores.sharedStore.shares.value + [] == stores.sharedStore.shares.value;
    }
  }
}
