/**
 * The per-view document client (src/electron/office/document_client.cc):
 * the editing state LibreOffice reports through `.uno:` state changes, the
 * buffer of state-change payloads that arrive before the client is mounted
 * and ready, the mount state, and the size refresh.  LibreOffice calls
 * (`getDocumentSize`, `getPartPageRectangles`, `getParts`) become
 * parameters; the parsed `(command, value)` pair of a state-change payload
 * and the `(command, success)` pair of a command result are given, because
 * their parsers are not part of this model.  The JavaScript wrapper is
 * reduced to whether it exists.
 */
module DocumentClients {
  import LokCallback
  import TileGrid

  /** The value a state change reports for an enabled command. */
  const Enabled: string := "enabled"

  /** `uno_state_.insert(pair)` after the empty-name check: an existing entry is never overwritten. */
  function StateAfterChange(state: map<string, string>, command: string, value: string): map<string, string>
  {
    if command == "" || command in state then state else state[command := value]
  }

  /** The lookup of `CanCopy`, `CanUndo` and `CanRedo`. */
  predicate CommandEnabled(state: map<string, string>, command: string)
  {
    command in state && state[command] == Enabled
  }

  /**
   * A state change enables a command exactly when the command was enabled
   * already, or it names the command for the first time with "enabled".
   */
  lemma EnabledAfterChange(state: map<string, string>, command: string, value: string, queried: string)
    ensures CommandEnabled(StateAfterChange(state, command, value), queried) <==>
      CommandEnabled(state, queried) || (queried == command && command != "" && command !in state && value == Enabled)
  {
  }

  /** The first report of a command is the one that stays: later ones never replace it. */
  lemma StateChangeKeepsEntries(state: map<string, string>, command: string, value: string)
    ensures var after := StateAfterChange(state, command, value);
      (forall c :: c in state ==> c in after && after[c] == state[c]) &&
      after.Keys == (if command == "" then state.Keys else state.Keys + {command})
  {
  }

  /** `HandleStateChange`'s buffering: a payload is kept while the client is not both mounted and ready. */
  function BufferAfterChange(buffer: seq<string>, payload: string, mounted: bool, ready: bool): seq<string>
  {
    if !mounted || !ready then buffer + [payload] else buffer
  }

  /** The clipboard refresh of `HandleUnoCommandResult`. */
  predicate RefreshesClipboard(command: string, success: bool)
  {
    (command == ".uno:Copy" || command == ".uno:Cut") && success
  }

  class DocumentClient {
    /** `document_` is set. */
    var hasDocument: bool
    var viewId: int
    /** `mounted_` holds the wrapper. */
    var mounted: bool
    var isReady: bool
    /** `uno_state_`. */
    var unoState: map<string, string>
    /** `state_change_buffer_`. */
    var stateChangeBuffer: seq<string>
    var widthTwips: int
    var heightTwips: int
    var pageRects: seq<TileGrid.Rect>
    /** How many `EmitReady` tasks were posted. */
    var readyPosted: nat

    /**
     * `DocumentClient(office_client, document, view_id, path)` as written:
     * the member initialisers leave `is_ready_` and the two document sizes
     * uninitialised, so their first values are whatever the storage held;
     * the parameters stand for those indeterminate values.
     */
    constructor AsWritten(viewId: int, garbageReady: bool, garbageWidth: int, garbageHeight: int)
      ensures hasDocument && this.viewId == viewId && !mounted
      ensures isReady == garbageReady && widthTwips == garbageWidth && heightTwips == garbageHeight
      ensures unoState == map[] && stateChangeBuffer == [] && pageRects == [] && readyPosted == 0
    {
      hasDocument := true;
      this.viewId := viewId;
      mounted := false;
      isReady := garbageReady;
      unoState := map[];
      stateChangeBuffer := [];
      widthTwips := garbageWidth;
      heightTwips := garbageHeight;
      pageRects := [];
      readyPosted := 0;
    }

    /**
     * The constructor with the evidently intended initial values: not ready
     * until the first tile invalidation, and an empty document size until
     * the first refresh.  The document must be loaded.
     */
    constructor (viewId: int)
      ensures hasDocument && this.viewId == viewId && !mounted && !isReady
      ensures unoState == map[] && stateChangeBuffer == [] && readyPosted == 0
      ensures widthTwips == 0 && heightTwips == 0 && pageRects == []
    {
      hasDocument := true;
      this.viewId := viewId;
      mounted := false;
      isReady := false;
      unoState := map[];
      stateChangeBuffer := [];
      widthTwips := 0;
      heightTwips := 0;
      pageRects := [];
      readyPosted := 0;
    }

    /** `ViewId()`: -1 without a document. */
    function ViewId(): (id: int)
      reads this
    {
      if !hasDocument then -1 else viewId
    }

    /** `IsMounted()`. */
    predicate IsMounted()
      reads this
    {
      mounted
    }

    /** `CanCopy()`. */
    predicate CanCopy()
      reads this
    {
      CommandEnabled(unoState, ".uno:Copy")
    }

    /** `CanUndo()`. */
    predicate CanUndo()
      reads this
    {
      CommandEnabled(unoState, ".uno:Undo")
    }

    /** `CanRedo()`. */
    predicate CanRedo()
      reads this
    {
      CommandEnabled(unoState, ".uno:Redo")
    }

    /**
     * `RefreshSize()`: unmounted (`view_id_ == -1`) it does nothing;
     * otherwise it takes the document size and parses the page rectangles.
     */
    method RefreshSize(documentWidth: int, documentHeight: int, pageRectText: string, parts: nat)
      modifies this
      ensures old(viewId) == -1 ==>
        widthTwips == old(widthTwips) && heightTwips == old(heightTwips) && pageRects == old(pageRects)
      ensures old(viewId) != -1 ==>
        widthTwips == documentWidth && heightTwips == documentHeight &&
        pageRects == LokCallback.RectsFrom(pageRectText, 0)
      ensures hasDocument == old(hasDocument) && viewId == old(viewId) && mounted == old(mounted)
      ensures isReady == old(isReady) && unoState == old(unoState) && stateChangeBuffer == old(stateChangeBuffer)
      ensures readyPosted == old(readyPosted)
    {
      if viewId == -1 {
        return;
      }
      widthTwips, heightTwips := documentWidth, documentHeight;
      pageRects := LokCallback.ParseMultipleRects(pageRectText, 0, parts);
    }

    /**
     * `Mount(isolate)`: a mounted client only reports its view; otherwise
     * the wrapper (when there is one) is held, the size refreshed and
     * `EmitReady` posted.
     */
    method Mount(wrapperAvailable: bool, documentWidth: int, documentHeight: int, pageRectText: string, parts: nat)
      returns (id: int)
      modifies this
      ensures id == ViewId() && viewId == old(viewId) && hasDocument == old(hasDocument)
      ensures old(mounted) ==>
        mounted && readyPosted == old(readyPosted) &&
        widthTwips == old(widthTwips) && heightTwips == old(heightTwips) && pageRects == old(pageRects)
      ensures !old(mounted) ==>
        mounted == wrapperAvailable && readyPosted == old(readyPosted) + 1 &&
        (viewId != -1 ==> widthTwips == documentWidth && heightTwips == documentHeight &&
                          pageRects == LokCallback.RectsFrom(pageRectText, 0)) &&
        (viewId == -1 ==> widthTwips == old(widthTwips) && heightTwips == old(heightTwips) &&
                          pageRects == old(pageRects))
      ensures isReady == old(isReady) && unoState == old(unoState) && stateChangeBuffer == old(stateChangeBuffer)
    {
      if mounted {
        return ViewId();
      }
      if wrapperAvailable {
        mounted := true;
      }
      RefreshSize(documentWidth, documentHeight, pageRectText, parts);
      readyPosted := readyPosted + 1;
      id := ViewId();
    }

    /** `Unmount()`: only a mounted client forgets its view and releases the wrapper. */
    method Unmount()
      modifies this
      ensures old(mounted) ==> !mounted && viewId == -1
      ensures !old(mounted) ==> !mounted && viewId == old(viewId)
      ensures hasDocument == old(hasDocument) && isReady == old(isReady) && unoState == old(unoState)
      ensures stateChangeBuffer == old(stateChangeBuffer) && readyPosted == old(readyPosted)
    {
      if !mounted {
        return;
      }
      viewId := -1;
      mounted := false;
    }

    /**
     * `HandleStateChange(payload)`: records the first value reported for a
     * named command, and buffers the payload unless mounted and ready.
     */
    method HandleStateChange(payload: string, command: string, value: string)
      modifies this
      ensures unoState == StateAfterChange(old(unoState), command, value)
      ensures stateChangeBuffer == BufferAfterChange(old(stateChangeBuffer), payload, mounted, isReady)
      ensures hasDocument == old(hasDocument) && viewId == old(viewId) && mounted == old(mounted)
      ensures isReady == old(isReady) && readyPosted == old(readyPosted)
    {
      if command != "" && command !in unoState {
        unoState := unoState[command := value];
      }
      if !mounted || !isReady {
        stateChangeBuffer := stateChangeBuffer + [payload];
      }
    }

    /** `HandleInvalidate(payload)`: the first tile invalidation makes the client ready. */
    method HandleInvalidate(payload: string)
      modifies this
      ensures isReady
      ensures hasDocument == old(hasDocument) && viewId == old(viewId) && mounted == old(mounted)
      ensures unoState == old(unoState) && stateChangeBuffer == old(stateChangeBuffer)
    {
      isReady := true;
    }

    /** `HandleUnoCommandResult(payload)`: whether the clipboard is read back from the document. */
    method HandleUnoCommandResult(command: string, success: bool) returns (refreshClipboard: bool)
      ensures refreshClipboard <==> RefreshesClipboard(command, success)
      ensures refreshClipboard ==> success && command in {".uno:Copy", ".uno:Cut"}
    {
      refreshClipboard := (command == ".uno:Copy" || command == ".uno:Cut") && success;
    }

    /** `SetView()`: the document's view is selected only when there is one. */
    method SetView() returns (selected: bool)
      ensures selected <==> ViewId() != -1
    {
      selected := ViewId() != -1;
    }

    /** `EmitReady(...)`: the buffered payloads are emitted in arrival order and the buffer emptied. */
    method EmitReady() returns (emitted: seq<string>)
      modifies this
      ensures emitted == old(stateChangeBuffer) && stateChangeBuffer == []
      ensures hasDocument == old(hasDocument) && viewId == old(viewId) && mounted == old(mounted)
      ensures isReady == old(isReady) && unoState == old(unoState) && readyPosted == old(readyPosted)
    {
      emitted := stateChangeBuffer;
      if stateChangeBuffer != [] {
        stateChangeBuffer := [];
      }
    }
  }

  /**
   * A payload that arrives before the client is ready is among those the
   * next `EmitReady` emits, after every payload buffered before it.
   */
  lemma BufferedBeforeReady(buffer: seq<string>, payload: string, mounted: bool)
    ensures var after := BufferAfterChange(buffer, payload, mounted, false);
      after[..|buffer|] == buffer && after[|buffer|] == payload && |after| == |buffer| + 1
  {
  }

  /**
   * A client whose uninitialised `is_ready_` happens to hold true loses a
   * state change that arrives between `Mount` and the first invalidation:
   * it is not buffered, so `EmitReady` has nothing to replay.
   */
  method AsWrittenLosesEarlyState(viewId: int, payload: string, command: string, value: string)
    returns (emitted: seq<string>)
    ensures emitted == []
  {
    var client := new DocumentClient.AsWritten(viewId, true, 0, 0);
    var _ := client.Mount(true, 0, 0, "", 0);
    client.HandleStateChange(payload, command, value);
    emitted := client.EmitReady();
  }

  /** With `is_ready_` initialised to false the same change is buffered and replayed. */
  method InitialisedKeepsEarlyState(viewId: int, payload: string, command: string, value: string)
    returns (emitted: seq<string>)
    ensures emitted == [payload]
  {
    var client := new DocumentClient(viewId);
    var _ := client.Mount(true, 0, 0, "", 0);
    client.HandleStateChange(payload, command, value);
    emitted := client.EmitReady();
  }

  /** Once mounted and ready, state changes are no longer buffered. */
  lemma NotBufferedWhenReady(buffer: seq<string>, payload: string)
    ensures BufferAfterChange(buffer, payload, true, true) == buffer
  {
  }
}
