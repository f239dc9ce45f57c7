/**
 * The LMS file picker dialog as a state machine. Every asynchronous
 * boundary of the component is an explicit event: a listing request
 * settling (by its request id), the authorization popup closing, and the
 * user's clicks. A transition yields the new state and the effects the
 * component performs, in order: listing requests, popup operations and
 * calls of the host's callbacks.
 */
module LmsFilePicker {
  import opened Wrappers
  import opened FakeLmsStorage

  /** The host's inputs: the LMS name, the authorization hint, and whether `onAuthorized` was given. */
  datatype Props = Props(lmsName: string, isAuthorized: bool, hasOnAuthorized: bool)

  /**
   * Who awaits a listing request. A request issued after a path change is
   * awaited by nobody, so its failure is dropped; one issued by
   * fetch-or-prompt turns an authorization failure into the prompt.
   */
  datatype Caller = PathChange | FetchOrPrompt

  /**
   * The component's popup handle: none; a popup open and awaited; the popup
   * closed and the follow-up listing request `fetch` in flight, after which
   * the handle is released; or a handle whose popup Cancel closed. Closing
   * drops the handle's reference to the popup but the component keeps the
   * handle: the wait for the popup never ends, a pending follow-up request
   * (`retry`) fails to release it, and focusing or closing it again does
   * nothing or throws.
   */
  datatype AuthWindow = NoWindow | Awaiting | Retrying(fetch: nat) | Released(retry: Option<nat>)

  datatype State = State(
    props: Props,
    isAuthorizing: bool,
    path: string,
    files: seq<Entry>,
    isLoading: bool,
    window: AuthWindow,
    pending: map<nat, Caller>,
    nextFetch: nat)

  datatype Event =
    | FetchOk(id: nat, listing: seq<Entry>)
    | FetchAuthError(id: nat)
    | FetchOtherError(id: nat)
    | SelectEntry(entry: Entry)
    | ChangePath(newPath: string)
    | AuthorizeClicked
    | AuthWindowClosed
    | Cancel

  datatype Effect =
    | StartFetch(id: nat, path: string)
    | OpenWindow
    | FocusWindow
    | CloseWindow
    | OnSelectFile(filePath: string)
    | OnAuthorized
    | OnCancel

  datatype Transition = Transition(state: State, effects: seq<Effect>)

  /** How a listing request settled. */
  datatype Outcome = Listed(files: seq<Entry>) | AuthorizationError | OtherError

  /** Request ids are fresh, and a retry after the popup is a pending fetch-or-prompt request. */
  predicate Valid(s: State) {
    && (forall id :: id in s.pending ==> id < s.nextFetch)
    && (s.window.Retrying? ==> s.window.fetch in s.pending && s.pending[s.window.fetch] == FetchOrPrompt)
    && (s.window.Released? && s.window.retry.Some? ==>
          s.window.retry.value in s.pending && s.pending[s.window.retry.value] == FetchOrPrompt)
  }

  /** The state the constructor sets up. */
  function Initial(props: Props): State {
    State(props, !props.isAuthorized, "", [], true, NoWindow, map[], 0)
  }

  /** `_fetchFiles`: mark the listing as loading and request the current path. */
  function FetchFiles(s: State, caller: Caller): (t: Transition)
    ensures t.state.isLoading && t.state.path == s.path && t.state.files == s.files
    ensures t.state.pending == s.pending[s.nextFetch := caller] && t.state.nextFetch == s.nextFetch + 1
    ensures t.effects == [StartFetch(s.nextFetch, s.path)]
  {
    Transition(
      s.(isLoading := true, pending := s.pending[s.nextFetch := caller], nextFetch := s.nextFetch + 1),
      [StartFetch(s.nextFetch, s.path)])
  }

  /** `_fetchFilesOrPromptToAuthorize`: leave the prompt and fetch; an authorization failure brings it back. */
  function FetchFilesOrPrompt(s: State): (t: Transition)
    ensures !t.state.isAuthorizing && t.state.isLoading
    ensures t.effects == [StartFetch(s.nextFetch, s.path)]
  {
    FetchFiles(s.(isAuthorizing := false), FetchOrPrompt)
  }

  /**
   * `_authorizeAndFetchFiles` up to its first await: show the prompt and
   * open the popup, or focus the one that exists. A handle whose popup was
   * closed by Cancel has nothing left to focus.
   */
  function AuthorizeAndFetch(s: State): (t: Transition)
    ensures t.state.isAuthorizing
    ensures s.window != NoWindow ==> t.state.window == s.window
    ensures s.window.Awaiting? || s.window.Retrying? ==> t.effects == [FocusWindow]
    ensures s.window.Released? ==> t.effects == []
    ensures s.window == NoWindow ==> t.effects == [OpenWindow] && t.state.window == Awaiting
  {
    match s.window
    case NoWindow => Transition(s.(isAuthorizing := true, window := Awaiting), [OpenWindow])
    case Released(_) => Transition(s.(isAuthorizing := true), [])
    case _ => Transition(s.(isAuthorizing := true), [FocusWindow])
  }

  /**
   * Construction followed by `componentDidMount`: the authorization flow
   * when the hint says access is not granted, a listing of the root otherwise.
   */
  function Mount(props: Props): (t: Transition)
    ensures t.state.isAuthorizing == !props.isAuthorized
    ensures t.state.path == "" && t.state.files == [] && t.state.isLoading
    ensures !props.isAuthorized ==> t.effects == [OpenWindow] && t.state.window == Awaiting
    ensures props.isAuthorized ==> t.effects == [StartFetch(0, "")] && t.state.window == NoWindow
    ensures Valid(t.state)
  {
    var s := Initial(props);
    if s.isAuthorizing then AuthorizeAndFetch(s) else FetchFilesOrPrompt(s)
  }

  /** `setState({path})` followed by `componentDidUpdate`, which refetches only when the path changed. */
  function SetPath(s: State, p: string): (t: Transition)
    ensures t.state.path == p && t.state.files == s.files && t.state.isAuthorizing == s.isAuthorizing
    ensures p != s.path ==> t.effects == [StartFetch(s.nextFetch, p)] && t.state.isLoading
    ensures p == s.path ==> t == Transition(s, [])
  {
    var s' := s.(path := p);
    if p != s.path then FetchFiles(s', PathChange) else Transition(s', [])
  }

  /** The path of `entry` inside the current directory. */
  function ChildPath(s: State, entry: Entry): string {
    s.path + "/" + entry.name
  }

  /** `selectFile`: enter a directory, or hand a file's path to the host. */
  function SelectFile(s: State, entry: Entry): (t: Transition)
    ensures entry.kind == Directory ==>
      t.state.path == ChildPath(s, entry) && t.effects == [StartFetch(s.nextFetch, ChildPath(s, entry))]
    ensures entry.kind == File ==> t == Transition(s, [OnSelectFile(ChildPath(s, entry))])
  {
    if entry.kind == Directory then SetPath(s, ChildPath(s, entry))
    else Transition(s, [OnSelectFile(ChildPath(s, entry))])
  }

  /**
   * A listing request settles. A success replaces the listing whatever path
   * it was requested for; an authorization failure prompts only if
   * fetch-or-prompt awaited it; other failures change nothing. If it was the
   * retry after the popup, `onAuthorized` then fires whatever the outcome,
   * and the popup is closed and its handle released. If Cancel already
   * closed the popup, closing it again throws first, and the handle stays.
   */
  function Complete(s: State, id: nat, outcome: Outcome): (t: Transition)
    ensures id !in s.pending ==> t == Transition(s, [])
    ensures t.state.path == s.path
    ensures id in s.pending && outcome.Listed? ==> t.state.files == outcome.files && !t.state.isLoading
    ensures !outcome.Listed? ==> t.state.files == s.files && t.state.isLoading == s.isLoading
    ensures id in s.pending ==>
      t.state.isAuthorizing == (s.isAuthorizing || (outcome == AuthorizationError && s.pending[id] == FetchOrPrompt))
    ensures Valid(s) && s.window == Retrying(id) ==>
      && t.state.window == NoWindow
      && t.effects == (if s.props.hasOnAuthorized then [OnAuthorized, CloseWindow] else [CloseWindow])
    ensures Valid(s) && s.window == Released(Some(id)) ==>
      && t.state.window == Released(None)
      && t.effects == (if s.props.hasOnAuthorized then [OnAuthorized] else [])
    ensures s.window != Retrying(id) && s.window != Released(Some(id)) ==>
      t.effects == [] && t.state.window == s.window
  {
    if id !in s.pending then Transition(s, [])
    else
      var caller := s.pending[id];
      var s1 := s.(pending := s.pending - {id});
      var s2 :=
        match outcome
        case Listed(fs) => s1.(isLoading := false, files := fs)
        case AuthorizationError => if caller == FetchOrPrompt then s1.(isAuthorizing := true) else s1
        case OtherError => s1;
      var notify := if s.props.hasOnAuthorized then [OnAuthorized] else [];
      if s.window == Retrying(id) then Transition(s2.(window := NoWindow), notify + [CloseWindow])
      else if s.window == Released(Some(id)) then Transition(s2.(window := Released(None)), notify)
      else Transition(s2, [])
  }

  /**
   * `cancel`: close a held popup, then tell the host. Closing a handle whose
   * popup is already closed throws, and the host is not told.
   */
  function CancelPicker(s: State): (t: Transition)
    ensures s.window == NoWindow ==> t == Transition(s, [OnCancel])
    ensures s.window == Awaiting ==> t == Transition(s.(window := Released(None)), [CloseWindow, OnCancel])
    ensures s.window.Retrying? ==>
      t == Transition(s.(window := Released(Some(s.window.fetch))), [CloseWindow, OnCancel])
    ensures s.window.Released? ==> t == Transition(s, [])
  {
    match s.window
    case NoWindow => Transition(s, [OnCancel])
    case Awaiting => Transition(s.(window := Released(None)), [CloseWindow, OnCancel])
    case Retrying(f) => Transition(s.(window := Released(Some(f))), [CloseWindow, OnCancel])
    case Released(_) => Transition(s, [])
  }

  /**
   * One event. The listing and the breadcrumbs are rendered only outside the
   * prompt, and the Authorize button only inside it, so their events are
   * ignored otherwise. The popup closing matters only while it is awaited.
   */
  function Step(s: State, e: Event): (t: Transition)
    ensures s.isAuthorizing && (e.SelectEntry? || e.ChangePath?) ==> t == Transition(s, [])
    ensures !s.isAuthorizing && e.AuthorizeClicked? ==> t == Transition(s, [])
    ensures e.AuthWindowClosed? && s.window != Awaiting ==> t == Transition(s, [])
    ensures e.AuthWindowClosed? && s.window == Awaiting ==>
      && t.effects == [StartFetch(s.nextFetch, s.path)]
      && t.state.window == Retrying(s.nextFetch)
      && !t.state.isAuthorizing && t.state.isLoading
      && t.state.pending == s.pending[s.nextFetch := FetchOrPrompt]
  {
    match e
    case FetchOk(id, listing) => Complete(s, id, Listed(listing))
    case FetchAuthError(id) => Complete(s, id, AuthorizationError)
    case FetchOtherError(id) => Complete(s, id, OtherError)
    case SelectEntry(entry) => if s.isAuthorizing then Transition(s, []) else SelectFile(s, entry)
    case ChangePath(p) => if s.isAuthorizing then Transition(s, []) else SetPath(s, p)
    case AuthorizeClicked => if s.isAuthorizing then AuthorizeAndFetch(s) else Transition(s, [])
    case AuthWindowClosed =>
      if s.window == Awaiting then
        var t := FetchFilesOrPrompt(s);
        Transition(t.state.(window := Retrying(s.nextFetch)), t.effects)
      else Transition(s, [])
    case Cancel => CancelPicker(s)
  }

  /** The dialog title. */
  function Title(s: State): (title: string)
    ensures title == "Allow file access" <==> s.isAuthorizing
  {
    if s.isAuthorizing then "Allow file access"
    else
      var title := "Select file from " + s.props.lmsName;
      assert title[0] != "Allow file access"[0];
      title
  }

  /** Every transition keeps request ids fresh and the popup retry tied to a pending request. */
  lemma StepPreservesValid(s: State, e: Event)
    requires Valid(s)
    ensures Valid(Step(s, e).state)
  {
    match e
    case FetchOk(id, listing) => CompletePreservesValid(s, id, Listed(listing));
    case FetchAuthError(id) => CompletePreservesValid(s, id, AuthorizationError);
    case FetchOtherError(id) => CompletePreservesValid(s, id, OtherError);
    case _ =>
  }

  /** Settling a request drops it from the pending map without breaking the invariant. */
  lemma CompletePreservesValid(s: State, id: nat, o: Outcome)
    requires Valid(s)
    ensures Valid(Complete(s, id, o).state)
  {
  }

  /** Entering a directory appends its name to the path and issues exactly one listing request for it. */
  lemma SelectDirectoryFetchesOnce(s: State, entry: Entry)
    requires !s.isAuthorizing && entry.kind == Directory
    ensures var t := Step(s, SelectEntry(entry));
      && t.state.path == s.path + "/" + entry.name
      && t.effects == [StartFetch(s.nextFetch, s.path + "/" + entry.name)]
      && t.state.isLoading && t.state.files == s.files
  {
  }

  /** Choosing a file reports its full path to the host and leaves the picker as it was. */
  lemma SelectFileNotifiesHost(s: State, entry: Entry)
    requires !s.isAuthorizing && entry.kind == File
    ensures Step(s, SelectEntry(entry)) == Transition(s, [OnSelectFile(s.path + "/" + entry.name)])
  {
  }

  /** A breadcrumb click refetches exactly when it changes the path. */
  lemma ChangePathFetchesIffChanged(s: State, p: string)
    requires !s.isAuthorizing
    ensures var t := Step(s, ChangePath(p));
      && t.state.path == p
      && ((exists id :: StartFetch(id, p) in t.effects) <==> p != s.path)
      && |t.effects| <= 1
  {
    var t := Step(s, ChangePath(p));
    if p != s.path {
      assert StartFetch(s.nextFetch, p) in t.effects;
    }
  }

  /** A successful listing replaces the files and ends loading, whichever path it was requested for. */
  lemma SuccessReplacesListing(s: State, id: nat, listing: seq<Entry>)
    requires id in s.pending
    ensures var t := Step(s, FetchOk(id, listing));
      t.state.files == listing && !t.state.isLoading && t.state.path == s.path
  {
  }

  /**
   * An authorization failure awaited by fetch-or-prompt shows the prompt;
   * one after a path change is dropped. Neither touches the listing or the
   * loading flag.
   */
  lemma AuthorizationErrorPrompts(s: State, id: nat)
    requires id in s.pending
    ensures var t := Step(s, FetchAuthError(id));
      && t.state.isAuthorizing == (s.isAuthorizing || s.pending[id] == FetchOrPrompt)
      && t.state.files == s.files && t.state.isLoading == s.isLoading && t.state.path == s.path
  {
  }

  /** Any other failure is swallowed: no prompt, no listing change. */
  lemma OtherErrorSwallowed(s: State, id: nat)
    ensures var t := Step(s, FetchOtherError(id));
      && t.state.isAuthorizing == s.isAuthorizing
      && t.state.files == s.files && t.state.isLoading == s.isLoading && t.state.path == s.path
      && (s.window != Retrying(id) && s.window != Released(Some(id)) ==> t.effects == [])
  {
  }

  /** Authorize while a popup handle exists only focuses its popup, if it still has one. */
  lemma AuthorizeFocusesExistingWindow(s: State)
    requires s.isAuthorizing && s.window != NoWindow
    ensures Step(s, AuthorizeClicked) == Transition(s, if s.window.Released? then [] else [FocusWindow])
  {
  }

  /**
   * However the retry after the popup settles, unless Cancel came first,
   * `onAuthorized` fires exactly when the host gave it, then the popup is
   * closed and the handle released.
   */
  lemma RetryAlwaysReleasesWindow(s: State, e: Event)
    requires Valid(s) && s.window.Retrying?
    requires (e.FetchOk? || e.FetchAuthError? || e.FetchOtherError?) && e.id == s.window.fetch
    ensures var t := Step(s, e);
      && t.state.window == NoWindow
      && t.effects == (if s.props.hasOnAuthorized then [OnAuthorized, CloseWindow] else [CloseWindow])
  {
  }

  /**
   * After Cancel closed the popup, the retry still fires `onAuthorized` when
   * given, but closing the popup again throws: nothing is closed and the
   * handle is never released.
   */
  lemma CancelledRetryKeepsHandle(s: State, e: Event)
    requires Valid(s) && s.window.Released? && s.window.retry.Some?
    requires (e.FetchOk? || e.FetchAuthError? || e.FetchOtherError?) && e.id == s.window.retry.value
    ensures var t := Step(s, e);
      && t.state.window == Released(None)
      && t.effects == (if s.props.hasOnAuthorized then [OnAuthorized] else [])
  {
  }

  /**
   * Cancel closes a popup the picker holds before telling the host, and
   * keeps the closed handle. With the handle already closed, closing throws
   * and the host is not told.
   */
  lemma CancelClosesWindowFirst(s: State)
    ensures var t := Step(s, Cancel);
      && (s.window == NoWindow ==> t == Transition(s, [OnCancel]))
      && (s.window.Awaiting? || s.window.Retrying? ==>
            t.effects == [CloseWindow, OnCancel] && t.state.window.Released?
            && t.state == s.(window := t.state.window))
      && (s.window.Released? ==> t == Transition(s, []))
  {
  }
}
