/**
 * The fake LMS backend's authorization state: which client tokens have
 * completed the authorization redirect, and how the redirect, the
 * authorization launch and the file-listing endpoints use and change it.
 */
module FakeLmsServer {
  import opened Wrappers
  import opened FakeLmsStorage
  import JsSemantics
  import LmsFilePicker
  import DirectoryBreadcrumbs

  /** The requests handled, with the query or header values they read (absent when not sent). */
  datatype Request =
    | OAuthRedirect(state: Option<string>)
    | AuthorizeFileAccess(authToken: Option<string>)
    | ListFilesRequest(authorization: Option<string>, path: Option<string>)

  datatype Response =
    | ClosePopupPage
    | Redirect(location: string, query: seq<(string, string)>)
    | Forbidden(status: string, reason: string)
    | FileListing(files: seq<Entry>)

  function StatusCode(r: Response): int {
    match r
    case ClosePopupPage => 200
    case Redirect(_, _) => 302
    case Forbidden(_, _) => 403
    case FileListing(_) => 200
  }

  /** The response and the set of authenticated tokens after it. */
  datatype Handled = Handled(tokens: set<string>, response: Response)

  /** The token map lookup, as a dictionary: only marked tokens are authenticated. */
  predicate IsAuthenticated(tokens: set<string>, key: string) {
    key in tokens
  }

  /**
   * The token map lookup as written: indexing an object literal also
   * answers, truthily, every name the object inherits.
   */
  predicate IsAuthenticatedAsWritten(tokens: set<string>, key: string) {
    key in tokens || key in JsSemantics.PrototypeKeys
  }

  /** `req.query.path || '/'`: a missing or empty path lists the root. */
  function ListingPath(path: Option<string>): (p: string)
    ensures path.Some? && path.value != "" ==> p == path.value
    ensures path.None? || path.value == "" ==> p == "/"
  {
    if path.None? || path.value == "" then "/" else path.value
  }

  const AuthorizeEndpoint: string := "/fake_lms_oauth_authorize"

  /** How the query-string encoder writes a value: a missing one as the empty string. */
  function QueryValue(v: Option<string>): string {
    if v.Some? then v.value else ""
  }

  /** The query of the redirect to the fake authorization page, in the order it is written. */
  function AuthorizeQuery(authToken: Option<string>): (query: seq<(string, string)>)
    ensures ("state", QueryValue(authToken)) in query
    ensures ("redirect_uri", "/oauth_redirect") in query
  {
    assert (("state", QueryValue(authToken)) == [("response_type", "code"), ("client_id", "dummy_client_id"), ("redirect_uri", "/oauth_redirect"),
     ("scope", "files"), ("state", QueryValue(authToken))][4]);
    [("response_type", "code"), ("client_id", "dummy_client_id"), ("redirect_uri", "/oauth_redirect"),
     ("scope", "files"), ("state", QueryValue(authToken))]
  }

  /** The listing endpoint: 403 for a token not marked authenticated, the directory's entries otherwise. */
  function ListingResponse(tokens: set<string>, authorization: Option<string>, path: Option<string>,
                           localeLe: (string, string) -> bool, now: string): (r: Response)
    ensures StatusCode(r) == 403 <==> !IsAuthenticated(tokens, JsSemantics.PropertyKey(authorization))
    ensures !IsAuthenticated(tokens, JsSemantics.PropertyKey(authorization)) ==> r.Forbidden? && r.status == "failure"
    ensures IsAuthenticated(tokens, JsSemantics.PropertyKey(authorization)) ==>
      r == FileListing(ListFiles(ListingPath(path), localeLe, now))
  {
    if !IsAuthenticated(tokens, JsSemantics.PropertyKey(authorization)) then
      Forbidden("failure", "User has not authorized access to the LMS")
    else
      FileListing(ListFiles(ListingPath(path), localeLe, now))
  }

  /** One request; `localeLe` and `now` are the listing's collation and clock. */
  function Handle(tokens: set<string>, req: Request, localeLe: (string, string) -> bool, now: string): (h: Handled)
    ensures req.OAuthRedirect? ==>
      h.tokens == tokens + {JsSemantics.PropertyKey(req.state)} && h.response == ClosePopupPage
    ensures !req.OAuthRedirect? ==> h.tokens == tokens
    ensures req.ListFilesRequest? ==> h.response == ListingResponse(tokens, req.authorization, req.path, localeLe, now)
    ensures req.AuthorizeFileAccess? ==>
      h.response == Redirect(AuthorizeEndpoint, AuthorizeQuery(req.authToken))
  {
    match req
    case OAuthRedirect(state) =>
      Handled(tokens + {JsSemantics.PropertyKey(state)}, ClosePopupPage)
    case AuthorizeFileAccess(authToken) =>
      Handled(tokens, Redirect(AuthorizeEndpoint, AuthorizeQuery(authToken)))
    case ListFilesRequest(authorization, path) =>
      Handled(tokens, ListingResponse(tokens, authorization, path, localeLe, now))
  }

  /** A sequence of requests served in order: the final tokens and every response. */
  function Serve(tokens: set<string>, reqs: seq<Request>, localeLe: (string, string) -> bool, now: string): (r: (set<string>, seq<Response>))
    ensures |r.1| == |reqs|
    ensures forall i :: 0 <= i < |reqs| && reqs[i].OAuthRedirect? ==> r.1[i] == ClosePopupPage
    ensures forall i :: 0 <= i < |reqs| && reqs[i].AuthorizeFileAccess? ==>
      r.1[i] == Redirect(AuthorizeEndpoint, AuthorizeQuery(reqs[i].authToken))
    decreases |reqs|
  {
    if |reqs| == 0 then (tokens, [])
    else
      var h := Handle(tokens, reqs[0], localeLe, now);
      var rest := Serve(h.tokens, reqs[1..], localeLe, now);
      assert forall i :: 1 <= i < |reqs| ==> reqs[1..][i - 1] == reqs[i];
      (rest.0, [h.response] + rest.1)
  }

  /** `req` is a redirect whose `state` is the key `t`. */
  predicate Names(req: Request, t: string) {
    req.OAuthRedirect? && JsSemantics.PropertyKey(req.state) == t
  }

  /** Some request of a non-empty run names `t` iff the first does or one of the rest does. */
  lemma SomeRequestNames(reqs: seq<Request>, t: string)
    requires |reqs| > 0
    ensures (exists i :: 0 <= i < |reqs| && Names(reqs[i], t)) <==>
      Names(reqs[0], t) || exists j :: 0 <= j < |reqs[1..]| && Names(reqs[1..][j], t)
  {
    if exists i :: 0 < i < |reqs| && Names(reqs[i], t) {
      var i :| 0 < i < |reqs| && Names(reqs[i], t);
      assert reqs[1..][i - 1] == reqs[i];
    }
    if exists j :: 0 <= j < |reqs[1..]| && Names(reqs[1..][j], t) {
      var j :| 0 <= j < |reqs[1..]| && Names(reqs[1..][j], t);
      assert reqs[j + 1] == reqs[1..][j];
    }
  }

  /** A token is authenticated after a run exactly when it already was or some redirect in the run named it. */
  lemma {:induction false} ServeMarksExactlyRedirected(tokens: set<string>, reqs: seq<Request>, localeLe: (string, string) -> bool, now: string, t: string)
    ensures t in Serve(tokens, reqs, localeLe, now).0 <==>
      t in tokens || exists i :: 0 <= i < |reqs| && Names(reqs[i], t)
    decreases |reqs|
  {
    if |reqs| > 0 {
      var h := Handle(tokens, reqs[0], localeLe, now);
      assert t in h.tokens <==> t in tokens || Names(reqs[0], t);
      ServeMarksExactlyRedirected(h.tokens, reqs[1..], localeLe, now, t);
      assert Serve(tokens, reqs, localeLe, now).0 == Serve(h.tokens, reqs[1..], localeLe, now).0;
      SomeRequestNames(reqs, t);
    }
  }

  /** Nothing ever unmarks a token. */
  lemma {:induction false} ServeIsMonotone(tokens: set<string>, reqs: seq<Request>, localeLe: (string, string) -> bool, now: string)
    ensures tokens <= Serve(tokens, reqs, localeLe, now).0
    decreases |reqs|
  {
    if |reqs| > 0 {
      ServeIsMonotone(Handle(tokens, reqs[0], localeLe, now).tokens, reqs[1..], localeLe, now);
    }
  }

  /**
   * The authorization launch passes the client's token through as `state`,
   * so completing the redirect with it authenticates exactly that token.
   */
  lemma AuthorizeFlowMarksToken(tokens: set<string>, t: string, localeLe: (string, string) -> bool, now: string)
    ensures var launch := Handle(tokens, AuthorizeFileAccess(Some(t)), localeLe, now).response;
      && launch.query[4] == ("state", t)
      && Handle(tokens, OAuthRedirect(Some(launch.query[4].1)), localeLe, now).tokens == tokens + {t}
  {
  }

  /**
   * The `Authorization` header is the key itself: a token marked
   * authenticated is not recognised when sent in `Bearer` form.
   */
  lemma HeaderUsedVerbatim(tokens: set<string>, t: string, path: Option<string>, localeLe: (string, string) -> bool, now: string)
    requires t in tokens && "Bearer " + t !in tokens
    ensures Handle(tokens, ListFilesRequest(Some(t), path), localeLe, now).response.FileListing?
    ensures StatusCode(Handle(tokens, ListFilesRequest(Some("Bearer " + t), path), localeLe, now).response) == 403
  {
  }

  /**
   * A redirect without `state` marks the key "undefined", which then lets
   * every listing request without an `Authorization` header through.
   */
  lemma MissingValuesShareKey(tokens: set<string>, path: Option<string>, localeLe: (string, string) -> bool, now: string)
    ensures var after := Handle(tokens, OAuthRedirect(None), localeLe, now).tokens;
      Handle(after, ListFilesRequest(None, path), localeLe, now).response.FileListing?
  {
  }

  /** As written, a client that never authorized passes the check by sending "toString" as its token. */
  lemma PrototypeTokenPassesCheck(localeLe: (string, string) -> bool, now: string)
    ensures IsAuthenticatedAsWritten({}, "toString")
    ensures !IsAuthenticated({}, "toString")
    ensures StatusCode(Handle({}, ListFilesRequest(Some("toString"), None), localeLe, now).response) == 403
  {
  }

  /**
   * How the client classifies a listing response: 403 is an authorization
   * error, a listing is a success, and any other page fails to parse as JSON.
   */
  function ClientOutcome(r: Response): LmsFilePicker.Outcome {
    match r
    case FileListing(files) => LmsFilePicker.Listed(files)
    case Forbidden(_, _) => LmsFilePicker.AuthorizationError
    case _ => LmsFilePicker.OtherError
  }

  /** The outcome of the picker's listing request for `path` with token `t`. */
  function FetchOutcome(tokens: set<string>, t: string, path: string, localeLe: (string, string) -> bool, now: string): (o: LmsFilePicker.Outcome)
    ensures t !in tokens ==> o == LmsFilePicker.AuthorizationError
    ensures t in tokens ==> o == LmsFilePicker.Listed(ListFiles(ListingPath(Some(path)), localeLe, now))
  {
    ClientOutcome(Handle(tokens, ListFilesRequest(Some(t), Some(path)), localeLe, now).response)
  }

  /**
   * A breadcrumb destination has no leading slash, but the stored
   * directories are keyed with one: going back up to "Tragedies" from a
   * directory "/Tragedies/<name>" lists nothing, although "/Tragedies" is
   * stored. The stored table has no directory at that depth (no name under
   * "/Tragedies" ends in `/`), so this needs a deeper tree than the stored one.
   */
  lemma BreadcrumbDestinationListsNothing(tokens: set<string>, t: string, play: string, localeLe: (string, string) -> bool, now: string)
    requires t in tokens && play != "" && '/' !in play
    ensures FetchOutcome(tokens, t, DirectoryBreadcrumbs.Destination("/Tragedies/" + play, 1), localeLe, now)
      == LmsFilePicker.Listed([])
  {
    DirectoryBreadcrumbs.TwoLevelDestination("Tragedies", play);
    assert "/" + "Tragedies" + "/" + play == "/Tragedies/" + play;
    UnslashedPathListsNothing(tokens, t, localeLe, now);
  }

  /** An authorized listing of "Tragedies" is empty. */
  lemma UnslashedPathListsNothing(tokens: set<string>, t: string, localeLe: (string, string) -> bool, now: string)
    requires t in tokens
    ensures FetchOutcome(tokens, t, "Tragedies", localeLe, now) == LmsFilePicker.Listed([])
  {
    StoredKeysAreAbsolute();
    assert ListingPath(Some("Tragedies")) == "Tragedies";
  }

  /** The stored directories are keyed "/Tragedies" and so on, never "Tragedies". */
  lemma StoredKeysAreAbsolute()
    ensures "Tragedies" !in StoredFiles && "/Tragedies" in StoredFiles
    ensures |StoredFiles["/Tragedies"]| == 12
  {
  }
}
