/**
 * Runs of the picker over event sequences: the popup is never opened twice
 * without a close in between, and the flows the dialog is built for, played
 * out event by event.
 */
module PickerTraces {
  import opened Wrappers
  import opened FakeLmsStorage
  import opened LmsFilePicker
  import DirectoryBreadcrumbs

  /** The picker fed `events` one after another, with all their effects in order. */
  function Run(s: State, events: seq<Event>): (t: Transition)
    decreases |events|
  {
    if |events| == 0 then Transition(s, [])
    else
      var first := Step(s, events[0]);
      var rest := Run(first.state, events[1..]);
      Transition(rest.state, first.effects + rest.effects)
  }

  /** The validity of the picker's state survives any run. */
  lemma {:induction false} RunPreservesValid(s: State, events: seq<Event>)
    requires Valid(s)
    ensures Valid(Run(s, events).state)
    decreases |events|
  {
    if |events| > 0 {
      StepPreservesValid(s, events[0]);
      RunPreservesValid(Step(s, events[0]).state, events[1..]);
    }
  }

  /** Popups open after one effect, when `open` were open before. */
  function PopupsAfterEffect(open: nat, e: Effect): nat {
    match e
    case OpenWindow => open + 1
    case CloseWindow => 0
    case _ => open
  }

  function PopupsAfter(open: nat, effects: seq<Effect>): nat
    decreases |effects|
  {
    if |effects| == 0 then open else PopupsAfter(PopupsAfterEffect(open, effects[0]), effects[1..])
  }

  /** Along `effects`, starting from `open` popups, at no point are two open. */
  ghost predicate SinglePopup(open: nat, effects: seq<Effect>)
    decreases |effects|
  {
    open <= 1 && (|effects| > 0 ==> SinglePopup(PopupsAfterEffect(open, effects[0]), effects[1..]))
  }

  lemma {:induction false} SinglePopupAppend(open: nat, a: seq<Effect>, b: seq<Effect>)
    requires SinglePopup(open, a) && SinglePopup(PopupsAfter(open, a), b)
    ensures SinglePopup(open, a + b)
    ensures PopupsAfter(open, a + b) == PopupsAfter(PopupsAfter(open, a), b)
    decreases |a|
  {
    if |a| > 0 {
      assert (a + b)[1..] == a[1..] + b;
      SinglePopupAppend(PopupsAfterEffect(open, a[0]), a[1..], b);
    } else {
      assert a + b == b;
    }
  }

  /** Without a popup handle no popup is open, and never more than one is. */
  ghost predicate PopupAccounting(s: State, open: nat) {
    open <= 1 && (s.window == NoWindow ==> open == 0)
  }

  lemma StepSinglePopup(s: State, e: Event, open: nat)
    requires PopupAccounting(s, open)
    ensures var t := Step(s, e);
      SinglePopup(open, t.effects) && PopupAccounting(t.state, PopupsAfter(open, t.effects))
  {
    var t := Step(s, e);
    var es := t.effects;
    match e
    case FetchOk(id, listing) => CompleteSinglePopup(s, id, Listed(listing), open, t);
    case FetchAuthError(id) => CompleteSinglePopup(s, id, AuthorizationError, open, t);
    case FetchOtherError(id) => CompleteSinglePopup(s, id, OtherError, open, t);
    case Cancel =>
      if s.window.Awaiting? || s.window.Retrying? {
        assert es == [CloseWindow, OnCancel];
        assert es[1..] == [OnCancel] && es[1..][1..] == [];
        assert SinglePopup(0, es[1..]);
        assert PopupsAfter(open, es) == PopupsAfter(0, es[1..]) == PopupsAfter(0, []) == 0;
      } else if s.window == NoWindow {
        assert es == [OnCancel] && es[1..] == [];
        assert PopupsAfter(open, es) == PopupsAfter(open, []) == open;
      } else {
        assert es == [];
      }
    case _ =>
      assert |es| <= 1;
      if |es| == 1 {
        assert es[1..] == [];
      }
  }

  /** A settling request either does nothing or releases the popup with a close. */
  lemma CompleteSinglePopup(s: State, id: nat, o: Outcome, open: nat, t: Transition)
    requires PopupAccounting(s, open)
    requires t == Complete(s, id, o)
    ensures SinglePopup(open, t.effects) && PopupAccounting(t.state, PopupsAfter(open, t.effects))
  {
    var es := t.effects;
    if id in s.pending && s.window == Retrying(id) {
      assert t.state.window == NoWindow;
      if s.props.hasOnAuthorized {
        assert es == [OnAuthorized, CloseWindow];
        assert es[1..] == [CloseWindow] && es[1..][1..] == [];
        assert PopupsAfter(open, es) == PopupsAfter(open, es[1..]) == PopupsAfter(0, []) == 0;
      } else {
        assert es == [CloseWindow] && es[1..] == [];
      }
    } else if id in s.pending && s.window == Released(Some(id)) {
      assert t.state.window == Released(None);
      if s.props.hasOnAuthorized {
        assert es == [OnAuthorized] && es[1..] == [];
        assert PopupsAfter(open, es) == PopupsAfter(open, []) == open;
      } else {
        assert es == [];
      }
    } else {
      assert es == [] && t.state.window == s.window;
    }
  }

  /** Whatever happens, a run never has two popups open at once. */
  lemma {:induction false} RunSinglePopup(s: State, events: seq<Event>, open: nat)
    requires PopupAccounting(s, open)
    ensures SinglePopup(open, Run(s, events).effects)
    ensures PopupAccounting(Run(s, events).state, PopupsAfter(open, Run(s, events).effects))
    decreases |events|
  {
    if |events| > 0 {
      var first := Step(s, events[0]);
      StepSinglePopup(s, events[0], open);
      var mid := PopupsAfter(open, first.effects);
      RunSinglePopup(first.state, events[1..], mid);
      SinglePopupAppend(open, first.effects, Run(first.state, events[1..]).effects);
    }
  }

  /** From mounting on, at most one authorization popup exists at a time. */
  lemma AtMostOnePopup(props: Props, events: seq<Event>)
    ensures var m := Mount(props);
      SinglePopup(0, m.effects + Run(m.state, events).effects)
  {
    var m := Mount(props);
    assert SinglePopup(0, m.effects) && PopupAccounting(m.state, PopupsAfter(0, m.effects)) by {
      if props.isAuthorized {
        assert PopupsAfter(0, m.effects) == 0;
      } else {
        assert PopupsAfter(0, m.effects) == 1;
      }
    }
    RunSinglePopup(m.state, events, PopupsAfter(0, m.effects));
    SinglePopupAppend(0, m.effects, Run(m.state, events).effects);
  }

  /**
   * After entering a directory, the breadcrumb bar's last link leads back
   * to the directory it was entered from, up to redundant slashes.
   */
  lemma ParentLinkReturns(s: State, entry: Entry)
    requires !s.isAuthorizing && entry.kind == Directory
    requires entry.name != "" && '/' !in entry.name
    ensures var path := Step(s, SelectEntry(entry)).state.path;
      var links := DirectoryBreadcrumbs.Render(path).links;
      && |links| > 0
      && DirectoryBreadcrumbs.NonEmptyParts(links[|links| - 1].destination)
         == DirectoryBreadcrumbs.NonEmptyParts(s.path)
  {
    assert Step(s, SelectEntry(entry)).state.path == s.path + "/" + entry.name;
    DirectoryBreadcrumbs.LastLinkLeadsToParent(s.path, entry.name);
  }

  /** Running `[e] + rest` is stepping `e`, then running `rest`. */
  lemma RunCons(s: State, e: Event, rest: seq<Event>)
    ensures var first := Step(s, e);
      var r := Run(first.state, rest);
      Run(s, [e] + rest) == Transition(r.state, first.effects + r.effects)
  {
    assert ([e] + rest)[0] == e;
    assert ([e] + rest)[1..] == rest;
  }

  /** Running a single event is stepping it. */
  lemma RunOne(s: State, e: Event)
    ensures Run(s, [e]) == Step(s, e)
  {
    RunCons(s, e, []);
    assert [e] + [] == [e];
  }

  const Tragedies: Entry := Entry(Directory, "Tragedies", IconUrl(FolderIcon), None)
  const Sonnets: Entry := Entry(File, "Sonnets.pdf", IconUrl(PdfFileIcon), Some("2019-01-01T00:00:00.000Z"))

  /**
   * Browsing with the hint set: the root is listed, entering "Tragedies"
   * requests "/Tragedies", and choosing "Sonnets.pdf" reports "/Sonnets.pdf".
   */
  lemma BrowseScenario(props: Props)
    requires props.isAuthorized
    ensures var m := Mount(props);
      && m.effects == [StartFetch(0, "")]
      && Run(m.state, [FetchOk(0, [Tragedies, Sonnets]), SelectEntry(Tragedies)]).effects
         == [StartFetch(1, "/Tragedies")]
      && Run(m.state, [FetchOk(0, [Tragedies, Sonnets]), SelectEntry(Sonnets)]).effects
         == [OnSelectFile("/Sonnets.pdf")]
  {
    var m := Mount(props);
    var listed := Step(m.state, FetchOk(0, [Tragedies, Sonnets]));
    assert listed.effects == [] && !listed.state.isAuthorizing;
    assert listed.state.path == "" && listed.state.nextFetch == 1;
    assert "" + "/" + Tragedies.name == "/Tragedies";
    assert "" + "/" + Sonnets.name == "/Sonnets.pdf";
    assert Step(listed.state, SelectEntry(Tragedies)).effects == [StartFetch(1, "/Tragedies")];
    assert Step(listed.state, SelectEntry(Sonnets)).effects == [OnSelectFile("/Sonnets.pdf")];
    RunCons(m.state, FetchOk(0, [Tragedies, Sonnets]), [SelectEntry(Tragedies)]);
    RunOne(listed.state, SelectEntry(Tragedies));
    RunCons(m.state, FetchOk(0, [Tragedies, Sonnets]), [SelectEntry(Sonnets)]);
    RunOne(listed.state, SelectEntry(Sonnets));
  }

  /**
   * Authorizing without the hint: the popup opens, closing it retries the
   * root listing, and its success shows the files, fires `onAuthorized`
   * once and closes the popup.
   */
  lemma AuthorizeScenario(props: Props, listing: seq<Entry>)
    requires !props.isAuthorized && props.hasOnAuthorized
    ensures var m := Mount(props);
      var t := Run(m.state, [AuthWindowClosed, FetchOk(0, listing)]);
      && m.effects + t.effects == [OpenWindow, StartFetch(0, ""), OnAuthorized, CloseWindow]
      && !t.state.isAuthorizing && t.state.files == listing && !t.state.isLoading
      && t.state.window == NoWindow
  {
    var m := Mount(props);
    var closed := Step(m.state, AuthWindowClosed);
    assert closed.state.window == Retrying(0) && closed.effects == [StartFetch(0, "")];
    assert Valid(closed.state);
    RunCons(m.state, AuthWindowClosed, [FetchOk(0, listing)]);
    RunOne(closed.state, FetchOk(0, listing));
  }

  /** A retry that is refused again still fires `onAuthorized`, and the prompt returns. */
  lemma RefusedRetryStillReportsAuthorized(props: Props)
    requires !props.isAuthorized && props.hasOnAuthorized
    ensures var m := Mount(props);
      var t := Run(m.state, [AuthWindowClosed, FetchAuthError(0)]);
      && t.effects == [StartFetch(0, ""), OnAuthorized, CloseWindow]
      && t.state.isAuthorizing && t.state.window == NoWindow
  {
    var m := Mount(props);
    var closed := Step(m.state, AuthWindowClosed);
    assert closed.state.window == Retrying(0) && closed.state.pending == map[0 := FetchOrPrompt];
    assert Valid(closed.state);
    RunCons(m.state, AuthWindowClosed, [FetchAuthError(0)]);
    RunOne(closed.state, FetchAuthError(0));
  }

  /**
   * No stale-response guard: a slow listing of "/Tragedies" that settles
   * after the user went back to the root replaces the root's files.
   */
  lemma LateResponseOverwrites(props: Props, root: seq<Entry>, plays: seq<Entry>)
    requires props.isAuthorized
    ensures var m := Mount(props);
      var t := Run(m.state, [FetchOk(0, root), SelectEntry(Tragedies), ChangePath(""), FetchOk(2, root), FetchOk(1, plays)]);
      t.state.path == "" && t.state.files == plays
  {
    var m := Mount(props);
    var s1 := Step(m.state, FetchOk(0, root)).state;
    var s2 := Step(s1, SelectEntry(Tragedies)).state;
    assert s2.path == "/Tragedies" && s2.pending == map[1 := PathChange];
    var s3 := Step(s2, ChangePath("")).state;
    assert s3.path == "" && 1 in s3.pending && 2 in s3.pending;
    var s4 := Step(s3, FetchOk(2, root)).state;
    assert 1 in s4.pending && s4.path == "";
    var s5 := Step(s4, FetchOk(1, plays)).state;
    assert s5.path == "" && s5.files == plays;
    RunOne(s4, FetchOk(1, plays));
    RunCons(s3, FetchOk(2, root), [FetchOk(1, plays)]);
    RunCons(s2, ChangePath(""), [FetchOk(2, root), FetchOk(1, plays)]);
    RunCons(s1, SelectEntry(Tragedies), [ChangePath(""), FetchOk(2, root), FetchOk(1, plays)]);
    RunCons(m.state, FetchOk(0, root), [SelectEntry(Tragedies), ChangePath(""), FetchOk(2, root), FetchOk(1, plays)]);
  }

  /**
   * Cancelling while the popup is awaited closes it and tells the host. The
   * wait for the popup never ends, so its closing starts no retry, and a
   * second Cancel throws before telling the host again.
   */
  lemma CancelledPopupNeverRetries(props: Props)
    requires !props.isAuthorized
    ensures var m := Mount(props);
      && Run(m.state, [Cancel, AuthWindowClosed]).effects == [CloseWindow, OnCancel]
      && Run(m.state, [Cancel, Cancel]).effects == [CloseWindow, OnCancel]
  {
    var m := Mount(props);
    var cancelled := Step(m.state, Cancel);
    assert cancelled.state.window == Released(None) && cancelled.effects == [CloseWindow, OnCancel];
    assert Step(cancelled.state, AuthWindowClosed).effects == [];
    assert Step(cancelled.state, Cancel).effects == [];
    RunCons(m.state, Cancel, [AuthWindowClosed]);
    RunOne(cancelled.state, AuthWindowClosed);
    RunCons(m.state, Cancel, [Cancel]);
    RunOne(cancelled.state, Cancel);
  }

  /**
   * Cancelling while the retry is in flight: the popup is closed and the
   * host told, then the retry's success still fires `onAuthorized`, and the
   * handle is kept for good.
   */
  lemma CancelDuringRetryKeepsHandle(props: Props, listing: seq<Entry>)
    requires !props.isAuthorized && props.hasOnAuthorized
    ensures var m := Mount(props);
      var t := Run(m.state, [AuthWindowClosed, Cancel, FetchOk(0, listing)]);
      && t.effects == [StartFetch(0, ""), CloseWindow, OnCancel, OnAuthorized]
      && t.state.window == Released(None)
  {
    var m := Mount(props);
    var closed := Step(m.state, AuthWindowClosed);
    assert closed.state.window == Retrying(0) && closed.state.pending == map[0 := FetchOrPrompt];
    var cancelled := Step(closed.state, Cancel);
    assert cancelled.state.window == Released(Some(0)) && cancelled.effects == [CloseWindow, OnCancel];
    assert Valid(cancelled.state);
    var settled := Step(cancelled.state, FetchOk(0, listing));
    assert settled.state.window == Released(None) && settled.effects == [OnAuthorized];
    RunOne(cancelled.state, FetchOk(0, listing));
    RunCons(closed.state, Cancel, [FetchOk(0, listing)]);
    RunCons(m.state, AuthWindowClosed, [Cancel, FetchOk(0, listing)]);
  }
}
