/**
 * The extension's background script: the global `headerStore` and the
 * toolbar action's title and icon as fields of one object, and the event
 * listeners as methods that update them step by step. Each method is proved
 * to perform the matching transition of module Correlation.
 */
module Background {
  import opened Wrappers
  import opened Headers
  import opened Filter
  import opened Verdicts
  import opened Correlation

  class Monitor {
    var headerStore: Store
    var title: string
    var icon: string

    /** The object's state as a value. */
    function View(): State
      reads this
    {
      State(headerStore, title, icon)
    }

    /** A fresh background page: an empty store; title and icon come from the extension's manifest. */
    constructor (initialTitle: string, initialIcon: string)
      ensures View() == State(map[], initialTitle, initialIcon)
    {
      headerStore := map[];
      title := initialTitle;
      icon := initialIcon;
    }

    /** changeTitle: the action's tooltip becomes `newTitle`. */
    method ChangeTitle(newTitle: string)
      modifies this`title
      ensures title == newTitle
    {
      title := newTitle;
    }

    /** changeIcon: the action's icon becomes the set named `status`. */
    method ChangeIcon(status: string)
      modifies this`icon
      ensures icon == status
    {
      icon := status;
    }

    /** checkHSTS: shows the verdict for the two observations, if there is one. */
    method ApplyCheckHsts(http: Option<Hsts>, https: Option<Hsts>)
      modifies this`title, this`icon
      ensures View() == Show(old(View()), CheckHsts(http, https))
    {
      if http.Some? && https.Some? {
        if !http.value.enable && !https.value.enable {
          ChangeTitle(NeitherTitle);
          ChangeIcon(DangerIcon);
        } else if http.value.enable && !https.value.enable {
          ChangeTitle(HttpOnlyTitle);
          ChangeIcon(SuccessIcon);
        } else if !http.value.enable && https.value.enable {
          ChangeTitle(HttpsAfterRedirectTitle);
          ChangeIcon(SuccessIcon);
        }
      }
      if http.None? && https.Some? {
        if https.value.enable {
          ChangeTitle(HttpsSetTitle);
          ChangeIcon(SuccessIcon);
        } else {
          ChangeTitle(HttpsUnsetTitle);
          ChangeIcon(WarningIcon);
        }
      }
      if http.Some? && https.None? {
        if http.value.enable {
          ChangeTitle(HttpOnlyTitle);
          ChangeIcon(SuccessIcon);
        } else {
          ChangeTitle(HttpUnsetTitle);
          ChangeIcon(DangerIcon);
        }
      }
    }

    /** The onBeforeRedirect listener. */
    method OnBeforeRedirect(info: RequestInfo)
      modifies this
      ensures View() == BeforeRedirect(old(View()), info)
    {
      if !IsRequestLoggable(info.tabId, info.url, info.frameType) {
        return;
      }
      var requestId, tabId := info.requestId, info.tabId;
      var hsts := FindHeader(info.responseHeaders);
      if tabId !in headerStore {
        headerStore := headerStore[tabId := map[]];
      }
      if info.protocol == Http {
        headerStore := headerStore[tabId := headerStore[tabId][requestId := Record(Some(hsts), None)]];
      }
    }

    /** The onHeadersReceived listener. */
    method OnHeadersReceived(info: RequestInfo)
      modifies this
      ensures View() == HeadersReceived(old(View()), info)
    {
      if !IsRequestLoggable(info.tabId, info.url, info.frameType) {
        return;
      }
      var requestId, tabId := info.requestId, info.tabId;
      var hsts := FindHeader(info.responseHeaders);
      if tabId !in headerStore || requestId !in headerStore[tabId] {
        headerStore := headerStore[tabId := map[]];
        headerStore := headerStore[tabId := headerStore[tabId][requestId := Record(None, None)]];
      }
      if info.protocol == Https {
        var record := Record(None, Some(hsts));
        if headerStore[tabId][requestId].http.Some? {
          record := record.(http := headerStore[tabId][requestId].http);
        }
        headerStore := headerStore[tabId := headerStore[tabId][requestId := record]];
      } else if info.protocol == Http {
        headerStore := headerStore[tabId := headerStore[tabId][requestId := Record(Some(hsts), None)]];
      }
    }

    /** The onCompleted listener. */
    method OnCompleted(info: RequestInfo)
      modifies this
      ensures View() == Completed(old(View()), info)
    {
      if !IsRequestLoggable(info.tabId, info.url, info.frameType) {
        return;
      }
      var requestId, tabId := info.requestId, info.tabId;
      if tabId !in headerStore || requestId !in headerStore[tabId] {
        return;
      }
      var httpHsts, httpsHsts := None, None;
      if headerStore[tabId][requestId].http.Some? {
        httpHsts := headerStore[tabId][requestId].http;
      }
      if headerStore[tabId][requestId].https.Some? {
        httpsHsts := headerStore[tabId][requestId].https;
      }
      ApplyCheckHsts(httpHsts, httpsHsts);
      headerStore := headerStore[tabId := headerStore[tabId] - {requestId}];
    }

    /** The tabs.onCreated listener (enabling the action for the tab is not modelled). */
    method OnCreated(tabId: int)
      modifies this
      ensures View() == TabCreated(old(View()), tabId)
    {
      headerStore := headerStore[tabId := map[]];
      ChangeTitle(EmptyTitle);
      ChangeIcon(PlaceholderIcon);
    }
  }
}
