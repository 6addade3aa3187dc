/**
 * The process-wide office instance (src/electron/office/office_instance.h
 * and office_instance.cc): one-shot start-up, the load observers, and the
 * registry that routes document events to the observers registered under
 * an exact (document, event type, view) id.  The registry is a map from
 * event id to an observer list plus a multimap from document id to the
 * event ids registered for it, kept here as a sequence of event ids (the
 * multimap's key is always the id's own document).  Observers are
 * identified by address; an observer list holds an observer at most once.
 * Posting a task and notifying an observer list are recorded, not run.
 */
module OfficeInstances {

  /** An observer, identified by its address. */
  type ObserverRef = nat

  /** `DocumentEventId(doc_id, evt_id, view_id_)`: the three fields in that order. */
  datatype DocumentEventId = DocumentEventId(documentId: nat, eventId: int, viewId: int)

  /** `DocumentEventId::operator==`: all three fields agree. */
  predicate SameEventId(a: DocumentEventId, b: DocumentEventId)
  {
    a.documentId == b.documentId && a.eventId == b.eventId && a.viewId == b.viewId
  }

  /** The comparison is the identity of ids, in both directions. */
  lemma SameEventIdIsIdentity(a: DocumentEventId, b: DocumentEventId)
    ensures SameEventId(a, b) <==> a == b
  {
  }

  /**
   * `std::hash<DocumentEventId>`: `HashInts64(document_id,
   * HashInts32(view_id, event_id))`, with both mixers left uninterpreted.
   */
  function EventIdHash(id: DocumentEventId, hashInts64: (nat, int) -> nat, hashInts32: (int, int) -> int): nat
  {
    hashInts64(id.documentId, hashInts32(id.viewId, id.eventId))
  }

  /** Ids that compare equal hash equally, whatever the mixers are. */
  lemma EqualIdsHashEqually(a: DocumentEventId, b: DocumentEventId,
                            hashInts64: (nat, int) -> nat, hashInts32: (int, int) -> int)
    requires SameEventId(a, b)
    ensures EventIdHash(a, hashInts64, hashInts32) == EventIdHash(b, hashInts64, hashInts32)
  {
  }

  // ---------------------------------------------------------------------
  // The document-event registry as a value

  /**
   * `document_event_observers_` and `document_id_to_document_event_ids_`
   * (each entry `(id.document_id, id)` stored as `id`).
   */
  datatype Registry = Registry(lists: map<DocumentEventId, set<ObserverRef>>, index: seq<DocumentEventId>)

  /** Every observer list was created by `AddDocumentObserver`, which indexed its id. */
  predicate Indexed(r: Registry)
  {
    forall id :: id in r.lists ==> id in r.index
  }

  /** The observers an event with id `id` reaches. */
  function Listed(r: Registry, id: DocumentEventId): set<ObserverRef>
  {
    if id in r.lists then r.lists[id] else {}
  }

  /**
   * `AddDocumentObserver(id, observer)`: the id's list, created when
   * missing, gains the observer, and the index gains one more entry for
   * the id even when it already has one.
   */
  function Added(r: Registry, id: DocumentEventId, observer: ObserverRef): Registry
  {
    Registry(r.lists[id := Listed(r, id) + {observer}], r.index + [id])
  }

  /** `RemoveDocumentObserver(id, observer)`: an unknown id changes nothing. */
  function RemovedObserver(r: Registry, id: DocumentEventId, observer: ObserverRef): Registry
  {
    if id in r.lists then Registry(r.lists[id := r.lists[id] - {observer}], r.index) else r
  }

  /**
   * The loop of `RemoveDocumentObservers(document_id)` over the index
   * entries `ids`: every entry of the document erases its id's list.
   */
  function Erased(lists: map<DocumentEventId, set<ObserverRef>>, ids: seq<DocumentEventId>, documentId: nat)
    : map<DocumentEventId, set<ObserverRef>>
  {
    if ids == [] then lists
    else
      var before := Erased(lists, ids[..|ids| - 1], documentId);
      var id := ids[|ids| - 1];
      if id.documentId == documentId then before - {id} else before
  }

  /** `event_ids.erase(document_id)`: every index entry of the document goes. */
  function Unindexed(index: seq<DocumentEventId>, documentId: nat): seq<DocumentEventId>
  {
    if index == [] then []
    else
      var rest := Unindexed(index[..|index| - 1], documentId);
      if index[|index| - 1].documentId == documentId then rest else rest + [index[|index| - 1]]
  }

  /** `RemoveDocumentObservers(document_id)`. */
  function RemovedDocument(r: Registry, documentId: nat): Registry
  {
    Registry(Erased(r.lists, r.index, documentId), Unindexed(r.index, documentId))
  }

  /**
   * The loop of `RemoveDocumentObservers(document_id, observer)` over the
   * index entries `ids`: each list of the document that exists loses the
   * observer.
   */
  function Withdrawn(lists: map<DocumentEventId, set<ObserverRef>>, ids: seq<DocumentEventId>,
                     documentId: nat, observer: ObserverRef): map<DocumentEventId, set<ObserverRef>>
  {
    if ids == [] then lists
    else
      var before := Withdrawn(lists, ids[..|ids| - 1], documentId, observer);
      var id := ids[|ids| - 1];
      if id.documentId == documentId && id in before then before[id := before[id] - {observer}] else before
  }

  /** `RemoveDocumentObservers(document_id, observer)`: the index is kept. */
  function WithdrawnFromDocument(r: Registry, documentId: nat, observer: ObserverRef): Registry
  {
    Registry(Withdrawn(r.lists, r.index, documentId, observer), r.index)
  }

  /** The erasing loop removes exactly the listed ids of the document. */
  lemma {:induction false} ErasedKeys(lists: map<DocumentEventId, set<ObserverRef>>, ids: seq<DocumentEventId>,
                                      documentId: nat, id: DocumentEventId)
    ensures id in Erased(lists, ids, documentId) <==>
      id in lists && !(id.documentId == documentId && id in ids)
    ensures id in Erased(lists, ids, documentId) ==> Erased(lists, ids, documentId)[id] == lists[id]
    decreases |ids|
  {
    if ids != [] {
      var init := ids[..|ids| - 1];
      ErasedKeys(lists, init, documentId, id);
      assert ids == init + [ids[|ids| - 1]];
      assert id in ids <==> id in init || id == ids[|ids| - 1];
    }
  }

  /** The withdrawing loop keeps every list and takes the observer out of the document's listed ones. */
  lemma {:induction false} WithdrawnLists(lists: map<DocumentEventId, set<ObserverRef>>, ids: seq<DocumentEventId>,
                                          documentId: nat, observer: ObserverRef, id: DocumentEventId)
    ensures id in Withdrawn(lists, ids, documentId, observer) <==> id in lists
    ensures id in lists ==>
      Withdrawn(lists, ids, documentId, observer)[id] ==
        if id.documentId == documentId && id in ids then lists[id] - {observer} else lists[id]
    decreases |ids|
  {
    if ids != [] {
      var init := ids[..|ids| - 1];
      WithdrawnLists(lists, init, documentId, observer, id);
      assert ids == init + [ids[|ids| - 1]];
      assert id in ids <==> id in init || id == ids[|ids| - 1];
    }
  }

  /** Erasing from the index keeps exactly the entries of other documents, each as often as before. */
  lemma {:induction false} UnindexedEntries(index: seq<DocumentEventId>, documentId: nat, id: DocumentEventId)
    ensures multiset(Unindexed(index, documentId))[id] ==
      if id.documentId == documentId then 0 else multiset(index)[id]
    decreases |index|
  {
    if index != [] {
      var init := index[..|index| - 1];
      UnindexedEntries(init, documentId, id);
      assert index == init + [index[|index| - 1]];
    }
  }

  /** An event reaches an observer after adding exactly when it was added or reached it before. */
  lemma ListedAfterAdd(r: Registry, id: DocumentEventId, observer: ObserverRef, target: DocumentEventId)
    ensures Listed(Added(r, id, observer), target) ==
      if target == id then Listed(r, id) + {observer} else Listed(r, target)
    ensures Indexed(r) ==> Indexed(Added(r, id, observer))
    ensures multiset(Added(r, id, observer).index)[id] == multiset(r.index)[id] + 1
  {
  }

  /** Removing one observer from one id affects that id only. */
  lemma ListedAfterRemove(r: Registry, id: DocumentEventId, observer: ObserverRef, target: DocumentEventId)
    ensures Listed(RemovedObserver(r, id, observer), target) ==
      if target == id then Listed(r, id) - {observer} else Listed(r, target)
    ensures Indexed(r) ==> Indexed(RemovedObserver(r, id, observer))
  {
  }

  /**
   * After `RemoveDocumentObservers(document_id)` no event of the document
   * reaches anyone and no index entry of it is left; other documents are
   * untouched.
   */
  lemma ListedAfterRemoveDocument(r: Registry, documentId: nat, target: DocumentEventId)
    requires Indexed(r)
    ensures Listed(RemovedDocument(r, documentId), target) ==
      if target.documentId == documentId then {} else Listed(r, target)
    ensures Indexed(RemovedDocument(r, documentId))
    ensures multiset(RemovedDocument(r, documentId).index)[target] ==
      if target.documentId == documentId then 0 else multiset(r.index)[target]
  {
    ErasedKeys(r.lists, r.index, documentId, target);
    UnindexedEntries(r.index, documentId, target);
    var after := RemovedDocument(r, documentId);
    forall id | id in after.lists
      ensures id in after.index
    {
      ErasedKeys(r.lists, r.index, documentId, id);
      UnindexedEntries(r.index, documentId, id);
      assert multiset(after.index)[id] > 0;
    }
  }

  /**
   * After `RemoveDocumentObservers(document_id, observer)` the observer is
   * reached by no event of the document; everyone else is reached as before.
   */
  lemma ListedAfterWithdraw(r: Registry, documentId: nat, observer: ObserverRef, target: DocumentEventId)
    requires Indexed(r)
    ensures Listed(WithdrawnFromDocument(r, documentId, observer), target) ==
      if target.documentId == documentId then Listed(r, target) - {observer} else Listed(r, target)
    ensures Indexed(WithdrawnFromDocument(r, documentId, observer))
  {
    WithdrawnLists(r.lists, r.index, documentId, observer, target);
    var after := WithdrawnFromDocument(r, documentId, observer);
    forall id | id in after.lists
      ensures id in after.index
    {
      WithdrawnLists(r.lists, r.index, documentId, observer, id);
    }
  }

  // ---------------------------------------------------------------------
  // The instance

  class OfficeInstance {
    /** The function-local `once` of `Create`. */
    var once: bool
    /** How many `Initialize` tasks were posted. */
    var initializationsPosted: nat
    /** `instance_` is set: LibreOffice is loaded. */
    var loaded: bool
    var unset: bool
    var destroying: bool
    /** `loaded_observers_`. */
    var loadObservers: set<ObserverRef>
    /** `destroyed_observers_`. */
    var destroyedObservers: set<ObserverRef>
    /** `document_event_observers_`. */
    var lists: map<DocumentEventId, set<ObserverRef>>
    /** `document_id_to_document_event_ids_`. */
    var index: seq<DocumentEventId>

    function Contents(): Registry
      reads this
    {
      Registry(lists, index)
    }

    /** Start-up is posted at most once, and every observer list is indexed. */
    ghost predicate Valid()
      reads this
    {
      initializationsPosted == (if once then 1 else 0) && Indexed(Contents())
    }

    /** `OfficeInstance()`: nothing loaded, nothing observed. */
    constructor ()
      ensures Valid() && !once && !loaded && !unset && !destroying
      ensures loadObservers == {} && destroyedObservers == {} && Contents() == Registry(map[], [])
    {
      once := false;
      initializationsPosted := 0;
      loaded := false;
      unset := false;
      destroying := false;
      loadObservers := {};
      destroyedObservers := {};
      lists := map[];
      index := [];
    }

    /** `Create()`: only the first call posts `Initialize`. */
    method Create()
      requires Valid()
      modifies this
      ensures Valid() && once
      ensures initializationsPosted == 1
      ensures old(once) ==> initializationsPosted == old(initializationsPosted)
      ensures loaded == old(loaded) && unset == old(unset) && Contents() == old(Contents())
      ensures loadObservers == old(loadObservers)
    {
      if once {
        return;
      }
      once := true;
      initializationsPosted := initializationsPosted + 1;
    }

    /**
     * `Initialize()`: unless `Unset` came first, loads LibreOffice (the
     * library call is taken to succeed) and notifies the load observers.
     */
    method Initialize() returns (notified: set<ObserverRef>)
      requires Valid()
      modifies this
      ensures Valid()
      ensures loaded == (old(loaded) || !unset)
      ensures notified == (if unset then {} else loadObservers)
      ensures unset == old(unset) && once == old(once) && Contents() == old(Contents())
      ensures loadObservers == old(loadObservers)
    {
      if !unset {
        loaded := true;
      }
      notified := {};
      if !unset {
        notified := loadObservers;
      }
    }

    /** `IsValid()`. */
    predicate IsValid()
      reads this
    {
      loaded
    }

    /** `Unset()`: marks the instance unset and drops LibreOffice. */
    method Unset()
      requires Valid()
      modifies this
      ensures Valid() && unset && !IsValid()
      ensures once == old(once) && Contents() == old(Contents()) && loadObservers == old(loadObservers)
    {
      unset := true;
      loaded := false;
    }

    /** `AddLoadObserver(observer)`: called at once when loaded, registered otherwise. */
    method AddLoadObserver(observer: ObserverRef) returns (calledNow: bool)
      requires Valid()
      modifies this
      ensures Valid()
      ensures calledNow == old(loaded)
      ensures loadObservers == if calledNow then old(loadObservers) else old(loadObservers) + {observer}
      ensures loaded == old(loaded) && unset == old(unset) && once == old(once) && Contents() == old(Contents())
    {
      calledNow := loaded;
      if !calledNow {
        loadObservers := loadObservers + {observer};
      }
    }

    /** `RemoveLoadObserver(observer)`. */
    method RemoveLoadObserver(observer: ObserverRef)
      requires Valid()
      modifies this
      ensures Valid() && loadObservers == old(loadObservers) - {observer}
      ensures loaded == old(loaded) && unset == old(unset) && once == old(once) && Contents() == old(Contents())
    {
      loadObservers := loadObservers - {observer};
    }

    /**
     * `HandleDocumentCallback(type, payload, context)`: dropped while
     * LibreOffice is not loaded; otherwise delivered to the observers of
     * exactly (document, type, view), and to no one when there are none.
     */
    method HandleDocumentCallback(eventType: int, documentId: nat, viewId: int) returns (delivered: set<ObserverRef>)
      requires Valid()
      ensures !loaded ==> delivered == {}
      ensures loaded ==> delivered == Listed(Contents(), DocumentEventId(documentId, eventType, viewId))
      ensures forall o :: o in delivered ==>
        exists id :: id in lists && SameEventId(id, DocumentEventId(documentId, eventType, viewId)) && o in lists[id]
    {
      if !loaded {
        return {};
      }
      var id := DocumentEventId(documentId, eventType, viewId);
      if id !in lists {
        return {};
      }
      delivered := lists[id];
      assert SameEventId(id, id);
    }

    /** `AddDocumentObserver(id, observer)`; the instance must be loaded. */
    method AddDocumentObserver(id: DocumentEventId, observer: ObserverRef)
      requires Valid() && IsValid()
      modifies this
      ensures Valid() && Contents() == Added(old(Contents()), id, observer)
      ensures loaded == old(loaded) && unset == old(unset) && once == old(once) && loadObservers == old(loadObservers)
    {
      var list := if id in lists then lists[id] else {};
      lists := lists[id := list + {observer}];
      index := index + [id];
    }

    /** `RemoveDocumentObserver(id, observer)`. */
    method RemoveDocumentObserver(id: DocumentEventId, observer: ObserverRef)
      requires Valid() && IsValid()
      modifies this
      ensures Valid() && Contents() == RemovedObserver(old(Contents()), id, observer)
      ensures loaded == old(loaded) && unset == old(unset) && once == old(once) && loadObservers == old(loadObservers)
    {
      if id !in lists {
        return;
      }
      lists := lists[id := lists[id] - {observer}];
    }

    /** `RemoveDocumentObservers(document_id)`. */
    method RemoveDocumentObservers(documentId: nat)
      requires Valid() && IsValid()
      modifies this
      ensures Valid() && Contents() == RemovedDocument(old(Contents()), documentId)
      ensures loaded == old(loaded) && unset == old(unset) && once == old(once) && loadObservers == old(loadObservers)
    {
      ListedAfterRemoveDocument(Contents(), documentId, DocumentEventId(documentId, 0, 0));
      var ids, erased := index, lists;
      var i := 0;
      while i < |ids|
        invariant 0 <= i <= |ids|
        invariant erased == Erased(lists, ids[..i], documentId)
      {
        assert ids[..i + 1][..i] == ids[..i];
        if ids[i].documentId == documentId {
          erased := erased - {ids[i]};
        }
        i := i + 1;
      }
      assert ids[..i] == ids;
      lists := erased;
      index := Unindexed(ids, documentId);
    }

    /** `RemoveDocumentObservers(document_id, observer)`. */
    method WithdrawFromDocument(documentId: nat, observer: ObserverRef)
      requires Valid() && IsValid()
      modifies this
      ensures Valid() && Contents() == WithdrawnFromDocument(old(Contents()), documentId, observer)
      ensures loaded == old(loaded) && unset == old(unset) && once == old(once) && loadObservers == old(loadObservers)
    {
      ListedAfterWithdraw(Contents(), documentId, observer, DocumentEventId(documentId, 0, 0));
      var ids, withdrawn := index, lists;
      var i := 0;
      while i < |ids|
        invariant 0 <= i <= |ids|
        invariant withdrawn == Withdrawn(lists, ids[..i], documentId, observer)
      {
        assert ids[..i + 1][..i] == ids[..i];
        var id := ids[i];
        if id.documentId == documentId && id in withdrawn {
          withdrawn := withdrawn[id := withdrawn[id] - {observer}];
        }
        i := i + 1;
      }
      assert ids[..i] == ids;
      lists := withdrawn;
    }

    /** `AddDestroyedObserver(observer)`. */
    method AddDestroyedObserver(observer: ObserverRef)
      requires Valid()
      modifies this
      ensures Valid() && destroyedObservers == old(destroyedObservers) + {observer}
      ensures loaded == old(loaded) && destroying == old(destroying) && Contents() == old(Contents())
    {
      destroyedObservers := destroyedObservers + {observer};
    }

    /** `RemoveDestroyedObserver(observer)`. */
    method RemoveDestroyedObserver(observer: ObserverRef)
      requires Valid()
      modifies this
      ensures Valid() && destroyedObservers == old(destroyedObservers) - {observer}
      ensures loaded == old(loaded) && destroying == old(destroying) && Contents() == old(Contents())
    {
      destroyedObservers := destroyedObservers - {observer};
    }

    /** `HandleClientDestroyed()`: marks the instance destroying and notifies every destroyed observer. */
    method HandleClientDestroyed() returns (notified: set<ObserverRef>)
      requires Valid()
      modifies this
      ensures Valid() && destroying && notified == destroyedObservers
      ensures destroyedObservers == old(destroyedObservers) && loaded == old(loaded) && Contents() == old(Contents())
    {
      destroying := true;
      notified := destroyedObservers;
    }
  }
}
