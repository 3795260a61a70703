/**
 * The request filter: decides whether a webRequest event concerns a
 * user-navigated top-level page of a real tab.
 */
module Filter {

  /** `p` occurs in `s` starting at index `k`. */
  predicate OccursAt(s: string, p: string, k: int)
  {
    0 <= k && k + |p| <= |s| && s[k..k + |p|] == p
  }

  ghost predicate Contains(s: string, p: string)
  {
    exists k :: OccursAt(s, p, k)
  }

  /**
   * JavaScript's `String.prototype.indexOf` with no start position: the
   * first index at which `p` occurs in `s`, or -1 when it occurs nowhere.
   */
  function IndexOf(s: string, p: string): (r: int)
    ensures r == -1 || OccursAt(s, p, r)
    ensures forall k :: 0 <= k && (r == -1 || k < r) ==> !OccursAt(s, p, k)
    ensures r == 0 <==> p <= s
    decreases |s|
  {
    if p <= s then 0
    else if |s| == 0 then -1
    else
      var j := IndexOf(s[1..], p);
      ShiftOccurs(s, p);
      if j == -1 then -1 else j + 1
  }

  /** An occurrence at `k > 0` in `s` is an occurrence at `k - 1` in `s[1..]`, and back. */
  lemma ShiftOccurs(s: string, p: string)
    requires |s| > 0
    ensures forall k :: 0 < k ==> (OccursAt(s, p, k) <==> OccursAt(s[1..], p, k - 1))
    ensures OccursAt(s, p, 0) <==> p <= s
  {
    forall k | 0 < k
      ensures OccursAt(s, p, k) <==> OccursAt(s[1..], p, k - 1)
    {
      if k + |p| <= |s| {
        assert s[1..][k - 1..k - 1 + |p|] == s[k..k + |p|];
      }
    }
  }

  const InstantSearch: string := "sourceid=chrome-instant"
  const AsyncNewTab: string := "async/newtab?async="
  const ChromeNewTab: string := "chrome/newtab?"
  const OneGoogleBar: string := "https://ogs.google.com"

  /**
   * isValidUrl: none of three substrings occurs in the URL, and the URL does
   * not start with the One Google Bar origin.
   */
  function IsValidUrl(url: string): (r: bool)
    ensures r <==>
      && !Contains(url, InstantSearch)
      && !Contains(url, AsyncNewTab)
      && !Contains(url, ChromeNewTab)
      && !(OneGoogleBar <= url)
  {
    && IndexOf(url, InstantSearch) == -1
    && IndexOf(url, AsyncNewTab) == -1
    && IndexOf(url, ChromeNewTab) == -1
    && IndexOf(url, OneGoogleBar) != 0
  }

  /** isRequestLoggable: a positive tab id, an acceptable URL and a top-level frame. */
  function IsRequestLoggable(tabId: int, url: string, frameType: string): (r: bool)
    ensures r <==>
      && tabId > 0
      && frameType == "main_frame"
      && !Contains(url, InstantSearch)
      && !Contains(url, AsyncNewTab)
      && !Contains(url, ChromeNewTab)
      && !(OneGoogleBar <= url)
  {
    tabId > 0 && IsValidUrl(url) && frameType == "main_frame"
  }

  /** A URL with the new-tab page pattern anywhere in it is never processed. */
  lemma NewTabRejected(tabId: int, url: string, frameType: string, k: int)
    requires OccursAt(url, ChromeNewTab, k)
    ensures !IsRequestLoggable(tabId, url, frameType)
  {
  }
}
