/**
 * `DocumentHolder` and `DocumentHolderWithView` (document_holder.cc): a
 * reference-counted owner of a LibreOfficeKit document, and a per-view
 * handle on it that may carry the duty of deregistering the document
 * callback when it is destroyed.  Copies never take that duty; moves hand
 * it over.  The LibreOfficeKit document itself is external: `LokDocument`
 * keeps only what the handle observes of it (its views, the current view
 * and whether a callback is registered).
 */
module DocumentHolders {
  /** The part of a `lok::Document` the holder reads and changes. */
  class LokDocument {
    /** The pointer value `PtrToId` reports; never 0 for a live object. */
    const address: nat
    var viewIds: seq<int>
    var nextViewId: nat
    var currentView: int
    var callbackRegistered: bool
    /** The view id of the callback context last registered. */
    var callbackView: int

    ghost predicate Valid()
      reads this
    {
      address > 0 && forall k :: 0 <= k < |viewIds| ==> 0 <= viewIds[k] < nextViewId
    }

    constructor (address: nat, viewIds: seq<nat>)
      requires address > 0
      ensures Valid() && this.address == address && this.viewIds == viewIds
      ensures !callbackRegistered
    {
      this.address := address;
      this.viewIds := viewIds;
      nextViewId := MaxPlusOne(viewIds);
      currentView := -1;
      callbackRegistered := false;
      callbackView := -1;
    }

    /** `createView()`: a view id not used before. */
    method CreateView() returns (id: int)
      requires Valid()
      modifies this
      ensures Valid() && id >= 0 && id !in old(viewIds)
      ensures viewIds == old(viewIds) + [id]
      ensures callbackRegistered == old(callbackRegistered)
      ensures callbackView == old(callbackView) && currentView == old(currentView)
    {
      id := nextViewId;
      viewIds := viewIds + [id];
      nextViewId := nextViewId + 1;
    }
  }

  /** One more than the largest id of the list, 0 for none. */
  function MaxPlusOne(ids: seq<nat>): (n: nat)
    ensures forall k :: 0 <= k < |ids| ==> ids[k] < n
  {
    if ids == [] then 0
    else
      var rest := MaxPlusOne(ids[1..]);
      assert forall k :: 1 <= k < |ids| ==> ids[k] == ids[1..][k - 1];
      if ids[0] < rest then rest else ids[0] + 1
  }

  /** `DocumentHolder`: owns the document; `refCount` counts its `scoped_refptr`s. */
  class DocumentHolder {
    const path: string
    const doc: LokDocument?
    var refCount: nat

    /** `base::MakeRefCounted<DocumentHolder>(doc, path)`: one reference, the caller's. */
    constructor (ownedDocument: LokDocument?, path: string)
      ensures doc == ownedDocument && this.path == path && refCount == 1
    {
      doc := ownedDocument;
      this.path := path;
      refCount := 1;
    }
  }

  /** What `operator==` compares: the holder object and the view id. */
  datatype DocumentRef = DocumentRef(holder: DocumentHolder?, viewId: int)

  // ---------------------------------------------------------------------
  // The view a new handle takes

  datatype ViewChoice = CreateNewView | ReuseFirstView

  /**
   * The constructor's choice as written: with no views a new one; when the
   * holder `HasOneRef()`, the single existing view; otherwise a new one.
   * `HasOneRef()` is asked after `holder_` has taken its own reference, so
   * the count it sees is the caller's references plus one.
   */
  function ChooseViewAsWritten(viewCount: nat, callerRefs: nat): ViewChoice
  {
    if viewCount == 0 then CreateNewView
    else if callerRefs + 1 == 1 then ReuseFirstView
    else CreateNewView
  }

  /**
   * The caller always holds the reference it passes in, so as written the
   * existing view is never reused: a freshly loaded document with its one
   * view gets a second view.
   */
  lemma AsWrittenNeverReuses(viewCount: nat, callerRefs: nat)
    requires callerRefs >= 1
    ensures ChooseViewAsWritten(viewCount, callerRefs) == CreateNewView
    ensures ChooseViewAsWritten(1, 1) == CreateNewView
  {
  }

  /**
   * The intended choice: the view is reused when the handle is the first one
   * on the holder, i.e. the pointer constructor wrapping a freshly loaded
   * document; `NewView()` always asks for a view of its own.
   */
  function ChooseView(viewCount: nat, firstHandle: bool): (choice: ViewChoice)
    ensures choice == ReuseFirstView <==> viewCount > 0 && firstHandle
  {
    if viewCount == 0 then CreateNewView
    else if firstHandle then ReuseFirstView
    else CreateNewView
  }

  /**
   * The intended choice reuses the view of a freshly loaded document, where
   * the code as written creates a second one; for a further handle the two
   * agree whatever the reference count.
   */
  lemma FirstHandleReusesView(viewCount: nat, callerRefs: nat)
    requires callerRefs >= 1
    ensures ChooseView(1, true) == ReuseFirstView
    ensures ChooseViewAsWritten(1, 1) != ChooseView(1, true)
    ensures ChooseView(viewCount, false) == ChooseViewAsWritten(viewCount, callerRefs)
  {
  }

  /** `DocumentHolderWithView`. */
  class DocumentHolderWithView {
    var viewId: int
    var holder: DocumentHolder?
    var deregistersCallback: bool

    /** `DocumentHolderWithView()`: no holder, view -1, no duty. */
    constructor Empty()
      ensures holder == null && viewId == -1 && !deregistersCallback
    {
      viewId := -1;
      holder := null;
      deregistersCallback := false;
    }

    /**
     * `DocumentHolderWithView(holder)`: takes a reference, picks a view
     * (see `ChooseView`; `firstHandle` says whether the handle is the
     * holder's first), makes it current, registers the document callback
     * with a context for that view, and takes the deregistration duty.  The
     * reuse branch `CHECK`s that there is exactly one view.
     */
    constructor FromHolder(holder: DocumentHolder, firstHandle: bool)
      requires holder.doc != null && holder.doc.Valid()
      requires ChooseView(|holder.doc.viewIds|, firstHandle) == ReuseFirstView ==> |holder.doc.viewIds| == 1
      modifies holder, holder.doc
      ensures this.holder == holder && holder.refCount == old(holder.refCount) + 1
      ensures holder.doc.Valid() && deregistersCallback
      ensures ChooseView(old(|holder.doc.viewIds|), firstHandle) == ReuseFirstView ==>
        viewId == old(holder.doc.viewIds[0]) && holder.doc.viewIds == old(holder.doc.viewIds)
      ensures ChooseView(old(|holder.doc.viewIds|), firstHandle) == CreateNewView ==>
        viewId !in old(holder.doc.viewIds) && holder.doc.viewIds == old(holder.doc.viewIds) + [viewId]
      ensures holder.doc.currentView == viewId && holder.doc.callbackRegistered && holder.doc.callbackView == viewId
    {
      var doc := holder.doc;
      var choice := ChooseView(|doc.viewIds|, firstHandle);
      holder.refCount := holder.refCount + 1;
      var id: int;
      if choice == CreateNewView {
        id := doc.CreateView();
      } else {
        id := doc.viewIds[0];
        assert id in doc.viewIds;
      }
      this.holder := holder;
      viewId := id;
      doc.currentView := id;
      doc.callbackRegistered := true;
      doc.callbackView := id;
      deregistersCallback := true;
    }

    /** `NewView()`: a further handle on the same holder, which gets a view of its own. */
    method NewView() returns (view: DocumentHolderWithView)
      requires holder != null && holder.doc != null && holder.doc.Valid()
      modifies holder, holder.doc
      ensures fresh(view) && view.holder == holder && view.deregistersCallback
      ensures holder.refCount == old(holder.refCount) + 1 && holder.doc.Valid()
      ensures view.viewId !in old(holder.doc.viewIds) && holder.doc.viewIds == old(holder.doc.viewIds) + [view.viewId]
      ensures holder.doc.currentView == view.viewId && holder.doc.callbackRegistered && holder.doc.callbackView == view.viewId
    {
      view := new DocumentHolderWithView.FromHolder(holder, false);
    }

    /** The copy constructor: same holder and view, never the duty. */
    constructor Copy(other: DocumentHolderWithView)
      modifies other.holder
      ensures viewId == other.viewId && holder == other.holder && !deregistersCallback
      ensures other.holder != null ==> other.holder.refCount == old(other.holder.refCount) + 1
      ensures Equals(other)
    {
      viewId := other.viewId;
      holder := other.holder;
      deregistersCallback := false;
      new;
      if holder != null {
        holder.refCount := holder.refCount + 1;
      }
    }

    /** The move constructor: takes the holder and the duty; `other` keeps neither. */
    constructor Move(other: DocumentHolderWithView)
      modifies other
      ensures viewId == old(other.viewId) && holder == old(other.holder)
      ensures deregistersCallback == old(other.deregistersCallback)
      ensures other.holder == null && !other.deregistersCallback && other.viewId == old(other.viewId)
    {
      viewId := other.viewId;
      holder := other.holder;
      deregistersCallback := other.deregistersCallback;
      new;
      other.holder := null;
      other.deregistersCallback := false;
    }

    /** Copy assignment: same holder and view, and the duty is dropped. Self-assignment changes nothing. */
    method CopyAssign(other: DocumentHolderWithView)
      modifies this, holder, other.holder
      ensures other == this ==>
        viewId == old(viewId) && holder == old(holder) && deregistersCallback == old(deregistersCallback)
      ensures other != this ==> viewId == other.viewId && holder == other.holder && !deregistersCallback
      ensures other != this ==> Equals(other)
      ensures other != this && other.holder != null && other.holder == old(holder) ==>
        other.holder.refCount == old(other.holder.refCount)
      ensures other != this && other.holder != null && other.holder != old(holder) ==>
        other.holder.refCount == old(other.holder.refCount) + 1
      ensures other != this && old(holder) != null && old(holder) != other.holder && old(holder.refCount) > 0 ==>
        old(holder).refCount == old(holder.refCount) - 1
    {
      if this != other {
        var previous := holder;
        var taken := other.holder;
        if taken != null {
          taken.refCount := taken.refCount + 1;
        }
        if previous != null && previous.refCount > 0 {
          previous.refCount := previous.refCount - 1;
        }
        holder := taken;
        viewId := other.viewId;
        deregistersCallback := false;
      }
    }

    /**
     * Move assignment: takes the holder and view and clears the source's
     * duty, but keeps this object's own duty flag as it was.  Self-move
     * changes nothing.
     */
    method MoveAssign(other: DocumentHolderWithView)
      modifies this, holder, other
      ensures other == this ==>
        viewId == old(viewId) && holder == old(holder) && deregistersCallback == old(deregistersCallback)
      ensures other != this ==>
        viewId == old(other.viewId) && holder == old(other.holder) &&
        deregistersCallback == old(deregistersCallback) &&
        other.holder == null && !other.deregistersCallback && other.viewId == old(other.viewId)
      ensures other != this && old(holder) != null && old(holder.refCount) > 0 ==>
        old(holder).refCount == old(holder.refCount) - 1
      ensures other != this && old(other.holder) != null && old(other.holder) != old(holder) ==>
        old(other.holder).refCount == old(other.holder.refCount)
    {
      if this != other {
        var previous := holder;
        holder := other.holder;
        other.holder := null;
        if previous != null && previous.refCount > 0 {
          previous.refCount := previous.refCount - 1;
        }
        viewId := other.viewId;
        other.deregistersCallback := false;
      }
    }

    /**
     * The destructor: only a handle with the duty makes its view current and
     * deregisters the callback; every handle gives up its reference.
     */
    method Destroy()
      requires deregistersCallback ==> holder != null && holder.doc != null && viewId > -1
      modifies holder, if holder != null then {holder.doc} else {}
      ensures holder != null && old(holder.refCount) > 0 ==> holder.refCount == old(holder.refCount) - 1
      ensures deregistersCallback ==> !holder.doc.callbackRegistered && holder.doc.currentView == viewId
      ensures !deregistersCallback && holder != null && holder.doc != null ==>
        holder.doc.callbackRegistered == old(holder.doc.callbackRegistered) &&
        holder.doc.currentView == old(holder.doc.currentView)
    {
      if deregistersCallback {
        SetAsCurrentView();
        holder.doc.callbackRegistered := false;
      }
      if holder != null && holder.refCount > 0 {
        holder.refCount := holder.refCount - 1;
      }
    }

    /** `SetAsCurrentView()`: `CHECK(view_id_ > -1)`, then selects the view. */
    method SetAsCurrentView()
      requires holder != null && holder.doc != null && viewId > -1
      modifies holder.doc
      ensures holder.doc.currentView == viewId
      ensures holder.doc.viewIds == old(holder.doc.viewIds)
      ensures holder.doc.callbackRegistered == old(holder.doc.callbackRegistered)
    {
      holder.doc.currentView := viewId;
    }

    /** `operator==`. */
    predicate Equals(other: DocumentHolderWithView)
      reads this, other
    {
      viewId == other.viewId && holder == other.holder
    }

    /** `operator!=`. */
    predicate NotEquals(other: DocumentHolderWithView)
      reads this, other
    {
      !Equals(other)
    }

    /** The value `operator==` compares. */
    function Ref(): (r: DocumentRef)
      reads this
      ensures r.holder == holder && r.viewId == viewId
    {
      DocumentRef(holder, viewId)
    }

    /** `operator bool`: a holder that owns a document. */
    predicate IsLive()
      reads this, holder
    {
      holder != null && holder.doc != null
    }

    /** `PtrToId()`: the document's address, 0 without a holder or document. */
    function PtrToId(): (id: nat)
      reads this, holder, if holder != null then {holder.doc} else {}
      requires holder != null && holder.doc != null ==> holder.doc.Valid()
      ensures id == 0 <==> !IsLive()
    {
      if holder == null || holder.doc == null then 0 else holder.doc.address
    }

    /** `ViewId()`. */
    function ViewId(): int
      reads this
    {
      viewId
    }
  }

  /**
   * `DocumentHolderWithView(owned_document, path)`: wraps a freshly loaded
   * document in a new holder, whose temporary reference is released once the
   * handle holds its own.  The handle of a document that already has its
   * one view takes that view.
   */
  method Open(ownedDocument: LokDocument, path: string) returns (handle: DocumentHolderWithView)
    requires ownedDocument.Valid() && |ownedDocument.viewIds| <= 1
    modifies ownedDocument
    ensures fresh(handle) && fresh(handle.holder) && handle.holder.doc == ownedDocument
    ensures handle.holder.refCount == 1 && handle.deregistersCallback && ownedDocument.Valid()
    ensures ownedDocument.currentView == handle.viewId
    ensures ownedDocument.callbackRegistered && ownedDocument.callbackView == handle.viewId
    ensures old(|ownedDocument.viewIds|) == 1 ==>
      handle.viewId == old(ownedDocument.viewIds[0]) && ownedDocument.viewIds == old(ownedDocument.viewIds)
    ensures old(|ownedDocument.viewIds|) == 0 ==> |ownedDocument.viewIds| == 1 && handle.viewId == ownedDocument.viewIds[0]
  {
    var holder := new DocumentHolder(ownedDocument, path);
    handle := new DocumentHolderWithView.FromHolder(holder, true);
    holder.refCount := holder.refCount - 1;
  }

  /**
   * `==` compares exactly the (holder, view) pair, `!=` is its negation, and
   * the comparison is an equivalence.
   */
  lemma EqualsIsRefEquality(a: DocumentHolderWithView, b: DocumentHolderWithView, c: DocumentHolderWithView)
    ensures a.Equals(b) <==> a.Ref() == b.Ref()
    ensures a.NotEquals(b) <==> a.Ref() != b.Ref()
    ensures a.Equals(a)
    ensures a.Equals(b) ==> b.Equals(a)
    ensures a.Equals(b) && b.Equals(c) ==> a.Equals(c)
  {
  }
}
