/**
 * The correlation store `headerStore` and what each browser event does to it
 * and to the toolbar action's title and icon, as pure transitions on a
 * `State`. The class in module Background performs the same steps in place.
 */
module Correlation {
  import opened Wrappers
  import opened Headers
  import opened Filter
  import opened Verdicts

  /**
   * What is stored for one request: the observation of its HTTP leg and of
   * its HTTPS leg. The script wraps each as `{enable: true, hsts: h}`; that
   * `enable` is always true and never read, so a present slot is `Some(h)`.
   */
  datatype Record = Record(http: Option<Hsts>, https: Option<Hsts>)

  /** Request id to record, for one tab. */
  type TabMap = map<string, Record>

  /** Tab id to that tab's requests. */
  type Store = map<int, TabMap>

  /** The extension's whole state: the store and what the toolbar action shows. */
  datatype State = State(store: Store, title: string, icon: string)

  /** `new URL(info.url).protocol`, reduced to the cases the handlers tell apart. */
  datatype Protocol = Http | Https | Other

  /** The fields of a webRequest event's details object that the handlers read. */
  datatype RequestInfo = RequestInfo(
    tabId: int,
    requestId: string,
    url: string,
    protocol: Protocol,
    frameType: string,
    responseHeaders: seq<Header>)

  const EmptyTitle: string := "Empty"
  const PlaceholderIcon: string := "."

  predicate Loggable(info: RequestInfo)
  {
    IsRequestLoggable(info.tabId, info.url, info.frameType)
  }

  /** The record stored for (tab, request), if any. */
  function Existing(store: Store, tab: int, req: string): Option<Record>
  {
    if tab in store && req in store[tab] then Some(store[tab][req]) else None
  }

  /** Every tab other than `tab` has the same entry (or none) in both stores. */
  ghost predicate OtherTabsUnchanged(s: Store, r: Store, tab: int)
  {
    forall t :: t != tab ==> (t in r <==> t in s) && (t in s ==> r[t] == s[t])
  }

  /** What the toolbar shows after a verdict: nothing changes when there is none. */
  function Show(s: State, v: Option<Verdict>): (r: State)
    ensures r.store == s.store
    ensures v.None? ==> r == s
    ensures v.Some? ==> r.title == v.value.title && r.icon == v.value.icon
  {
    match v
    case None => s
    case Some(verdict) => s.(title := verdict.title, icon := verdict.icon)
  }

  /**
   * The before-redirect handler. A processed event makes sure the tab has a
   * map; on `http:` it then replaces the request's record by one holding only
   * the HTTP observation (any HTTPS slot is dropped). On any other protocol no
   * record changes.
   */
  function BeforeRedirect(s: State, info: RequestInfo): (r: State)
    ensures !Loggable(info) ==> r == s
    ensures r.title == s.title && r.icon == s.icon
    ensures OtherTabsUnchanged(s.store, r.store, info.tabId)
    ensures Loggable(info) ==> info.tabId in r.store
    ensures Loggable(info) && info.protocol != Http ==>
      r.store == if info.tabId in s.store then s.store else s.store[info.tabId := map[]]
    ensures Loggable(info) && info.protocol == Http ==>
      Existing(r.store, info.tabId, info.requestId) == Some(Record(Some(LastHsts(info.responseHeaders)), None))
    ensures Loggable(info) ==> forall q :: q != info.requestId ==>
      Existing(r.store, info.tabId, q) == Existing(s.store, info.tabId, q)
  {
    if !Loggable(info) then s
    else
      var tab, req := info.tabId, info.requestId;
      var store := if tab in s.store then s.store else s.store[tab := map[]];
      if info.protocol == Http then
        var record := Record(Some(LastHsts(info.responseHeaders)), None);
        s.(store := store[tab := store[tab][req := record]])
      else
        s.(store := store)
  }

  /**
   * The headers-received handler. When the request has no record yet, the
   * tab's whole map is replaced by one holding only an empty record for it,
   * which discards the tab's other in-flight records. Then on `https:` the
   * HTTPS slot is set and the request's HTTP slot is kept; on `http:` the
   * record becomes HTTP-only; on any other protocol it is left as it is.
   */
  function HeadersReceived(s: State, info: RequestInfo): (r: State)
    ensures !Loggable(info) ==> r == s
    ensures r.title == s.title && r.icon == s.icon
    ensures OtherTabsUnchanged(s.store, r.store, info.tabId)
    ensures Loggable(info) ==> Existing(r.store, info.tabId, info.requestId).Some?
    ensures Loggable(info) && Existing(s.store, info.tabId, info.requestId).None? ==>
      r.store[info.tabId].Keys == {info.requestId}
    ensures Loggable(info) && Existing(s.store, info.tabId, info.requestId).Some? ==>
      forall q :: q != info.requestId ==> Existing(r.store, info.tabId, q) == Existing(s.store, info.tabId, q)
    ensures Loggable(info) && info.protocol == Https ==>
      var prior := Existing(s.store, info.tabId, info.requestId);
      var stored := Existing(r.store, info.tabId, info.requestId).value;
      stored.https == Some(LastHsts(info.responseHeaders)) &&
      stored.http == (if prior.Some? then prior.value.http else None)
    ensures Loggable(info) && info.protocol == Http ==>
      Existing(r.store, info.tabId, info.requestId) == Some(Record(Some(LastHsts(info.responseHeaders)), None))
    ensures Loggable(info) && info.protocol == Other ==>
      var prior := Existing(s.store, info.tabId, info.requestId);
      Existing(r.store, info.tabId, info.requestId) == if prior.Some? then prior else Some(Record(None, None))
  {
    if !Loggable(info) then s
    else
      var tab, req := info.tabId, info.requestId;
      var hsts := LastHsts(info.responseHeaders);
      var store :=
        if Existing(s.store, tab, req).None? then s.store[tab := map[req := Record(None, None)]]
        else s.store;
      var record := store[tab][req];
      match info.protocol
      case Https => s.(store := store[tab := store[tab][req := Record(record.http, Some(hsts))]])
      case Http => s.(store := store[tab := store[tab][req := Record(Some(hsts), None)]])
      case Other => s.(store := store)
  }

  /**
   * The completed handler. With no record for (tab, request) nothing changes.
   * Otherwise the verdict for the record's two slots is shown and exactly that
   * request's key is removed; the tab's entry itself stays.
   */
  function Completed(s: State, info: RequestInfo): (r: State)
    ensures !Loggable(info) || Existing(s.store, info.tabId, info.requestId).None? ==> r == s
    ensures OtherTabsUnchanged(s.store, r.store, info.tabId)
    ensures Loggable(info) ==> Existing(r.store, info.tabId, info.requestId).None?
    ensures r.store.Keys == s.store.Keys
    ensures forall q :: q != info.requestId ==> Existing(r.store, info.tabId, q) == Existing(s.store, info.tabId, q)
    ensures Loggable(info) && Existing(s.store, info.tabId, info.requestId).Some? ==>
      var record := Existing(s.store, info.tabId, info.requestId).value;
      r == Show(s, CheckHsts(record.http, record.https)).(store := r.store)
  {
    if !Loggable(info) then s
    else
      var tab, req := info.tabId, info.requestId;
      match Existing(s.store, tab, req)
      case None => s
      case Some(record) =>
        var shown := Show(s, CheckHsts(record.http, record.https));
        shown.(store := s.store[tab := s.store[tab] - {req}])
  }

  /** The tab-created handler: the tab's map is reset to empty and the action to its placeholder. */
  function TabCreated(s: State, tabId: int): (r: State)
    ensures r.store.Keys == s.store.Keys + {tabId} && r.store[tabId] == map[]
    ensures OtherTabsUnchanged(s.store, r.store, tabId)
    ensures forall q :: Existing(r.store, tabId, q).None?
    ensures r.title == EmptyTitle && r.icon == PlaceholderIcon
  {
    State(s.store[tabId := map[]], EmptyTitle, PlaceholderIcon)
  }

  // ---------------------------------------------------------------------------
  // Properties of sequences of events

  /** An event the filter rejects changes nothing, whichever webRequest handler receives it. */
  lemma RejectedIsNoOp(s: State, info: RequestInfo)
    requires !Loggable(info)
    ensures BeforeRedirect(s, info) == s
    ensures HeadersReceived(s, info) == s
    ensures Completed(s, info) == s
  {
  }

  /** A second completion of the same request is a no-op: no record outlives its navigation. */
  lemma CompletedIdempotent(s: State, info: RequestInfo)
    ensures Completed(Completed(s, info), info) == Completed(s, info)
  {
  }

  /**
   * After a tab is created, headers received for it start a fresh record: no
   * slot from an earlier navigation leaks into it, and it is the tab's only record.
   */
  lemma ResetThenHeaders(s: State, info: RequestInfo)
    requires Loggable(info)
    ensures var r := HeadersReceived(TabCreated(s, info.tabId), info);
      && r.store[info.tabId].Keys == {info.requestId}
      && r.store[info.tabId][info.requestId] ==
         match info.protocol
         case Https => Record(None, Some(LastHsts(info.responseHeaders)))
         case Http => Record(Some(LastHsts(info.responseHeaders)), None)
         case Other => Record(None, None)
  {
  }

  /** After a tab is created, a completion in that tab finds no record and shows nothing. */
  lemma ResetThenCompleted(s: State, tabId: int, info: RequestInfo)
    requires info.tabId == tabId
    ensures Completed(TabCreated(s, tabId), info) == TabCreated(s, tabId)
  {
  }

  /**
   * An HTTP request redirected to HTTPS under the same request id: the
   * redirect records the HTTP leg, the HTTPS headers add the HTTPS leg, and
   * completion shows the verdict for both legs and removes the record.
   */
  lemma RedirectChain(s: State, redirect: RequestInfo, received: RequestInfo, completed: RequestInfo)
    requires Loggable(redirect) && Loggable(received) && Loggable(completed)
    requires redirect.protocol == Http && received.protocol == Https
    requires received.tabId == redirect.tabId && completed.tabId == redirect.tabId
    requires received.requestId == redirect.requestId && completed.requestId == redirect.requestId
    ensures var r := Completed(HeadersReceived(BeforeRedirect(s, redirect), received), completed);
      && Existing(r.store, redirect.tabId, redirect.requestId).None?
      && OtherTabsUnchanged(s.store, r.store, redirect.tabId)
      && var v := CheckHsts(Some(LastHsts(redirect.responseHeaders)), Some(LastHsts(received.responseHeaders)));
         && (v.Some? ==> r.title == v.value.title && r.icon == v.value.icon)
         && (v.None? ==> r.title == s.title && r.icon == s.icon)
  {
    var s1 := BeforeRedirect(s, redirect);
    var s2 := HeadersReceived(s1, received);
    assert Existing(s2.store, redirect.tabId, redirect.requestId) ==
      Some(Record(Some(LastHsts(redirect.responseHeaders)), Some(LastHsts(received.responseHeaders))));
  }

  /**
   * A load with no redirect, for a request with no record yet: completion
   * shows the verdict for the one observed leg.
   */
  lemma DirectLoad(s: State, received: RequestInfo, completed: RequestInfo)
    requires Loggable(received) && Loggable(completed)
    requires Existing(s.store, received.tabId, received.requestId).None?
    requires received.protocol != Other
    requires completed.tabId == received.tabId && completed.requestId == received.requestId
    ensures var r := Completed(HeadersReceived(s, received), completed);
      var h := Some(LastHsts(received.responseHeaders));
      var v := if received.protocol == Http then CheckHsts(h, None) else CheckHsts(None, h);
      && v.Some?
      && r.title == v.value.title && r.icon == v.value.icon
      && r.store[received.tabId] == map[]
  {
  }

  /**
   * Headers received for a request the tab has no record of replace the tab's
   * whole map: a record of another in-flight request in that tab is lost.
   */
  lemma HeadersReceivedDropsSiblings(s: State, info: RequestInfo, sibling: string)
    requires Loggable(info)
    requires Existing(s.store, info.tabId, info.requestId).None?
    requires sibling != info.requestId
    ensures Existing(HeadersReceived(s, info).store, info.tabId, sibling).None?
  {
    var r := HeadersReceived(s, info);
    assert sibling !in r.store[info.tabId].Keys;
  }

  /**
   * An `http:` response without the header redirects to `https:`, whose
   * response carries `Strict-Transport-Security: max-age=31536000`: the
   * success verdict for a redirect to an HSTS-enabled HTTPS site is shown.
   */
  lemma RedirectToHstsSite(s: State, tabId: int, requestId: string, httpUrl: string, httpsUrl: string)
    requires tabId > 0 && IsValidUrl(httpUrl) && IsValidUrl(httpsUrl)
    ensures
      var redirect := RequestInfo(tabId, requestId, httpUrl, Http, "main_frame", [Header("Location", httpsUrl)]);
      var received := RequestInfo(tabId, requestId, httpsUrl, Https, "main_frame",
                                  [Header("Strict-Transport-Security", "max-age=31536000")]);
      var completed := RequestInfo(tabId, requestId, httpsUrl, Https, "main_frame", []);
      var r := Completed(HeadersReceived(BeforeRedirect(s, redirect), received), completed);
      r.title == HttpsAfterRedirectTitle && r.icon == SuccessIcon
  {
    var redirect := RequestInfo(tabId, requestId, httpUrl, Http, "main_frame", [Header("Location", httpsUrl)]);
    var received := RequestInfo(tabId, requestId, httpsUrl, Https, "main_frame",
                                [Header("Strict-Transport-Security", "max-age=31536000")]);
    var completed := RequestInfo(tabId, requestId, httpsUrl, Https, "main_frame", []);
    CanonicalSpellingMatches("max-age=31536000", "max-age=31536000");
    assert ToLower("Location") != HstsName;
    assert LastHsts(redirect.responseHeaders) == Absent;
    assert LastHsts(received.responseHeaders) == Hsts(true, "max-age=31536000");
    RedirectChain(s, redirect, received, completed);
  }
}
