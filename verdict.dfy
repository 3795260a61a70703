/**
 * The verdict table of checkHSTS: maps the HSTS observation of the HTTP leg
 * and of the HTTPS leg of one navigation (each possibly absent) to the
 * tooltip title and icon set to show, or to nothing at all.
 */
module Verdicts {
  import opened Wrappers
  import opened Headers

  datatype Verdict = Verdict(title: string, icon: string)

  const DangerIcon: string := "danger"
  const SuccessIcon: string := "success"
  const WarningIcon: string := "warning"

  const NeitherTitle: string := "Both HTTP and HTTPS HSTS headers not exist - Most dangerous"
  const HttpOnlyTitle: string := "HTTP HSTS exists, but SSL redirect not used - Secure"
  const HttpsAfterRedirectTitle: string := "HTTP HSTS not exists, but HTTPS does. Also SSL redirect is used - Secure"
  const HttpsSetTitle: string := "HTTPS HSTS exists - Secure, but HTTP response needs to be verified"
  const HttpsUnsetTitle: string := "HTTPS HSTS not exist - Maybe danger, but HTTP response needs to be verified"
  const HttpUnsetTitle: string := "HTTP HSTS not exist and SSL redirect not used - Most dangerous"

  /** The leg was observed and its response carried the HSTS header. */
  predicate Enabled(o: Option<Hsts>)
  {
    o.Some? && o.value.enable
  }

  /**
   * checkHSTS's decision. Nothing is shown when neither leg was observed, and
   * nothing when both were and both carry the header. Otherwise the icon is
   * `success` when some observed leg sets HSTS, `danger` when the HTTP leg was
   * observed and no leg sets it, and `warning` when only an HTTPS leg without
   * HSTS was observed.
   */
  function CheckHsts(http: Option<Hsts>, https: Option<Hsts>): (r: Option<Verdict>)
    ensures r.None? <==> (http.None? && https.None?) || (Enabled(http) && Enabled(https))
    ensures r.Some? ==> (r.value.icon == SuccessIcon <==> Enabled(http) || Enabled(https))
    ensures r.Some? ==> (r.value.icon == DangerIcon <==> http.Some? && !Enabled(http) && !Enabled(https))
    ensures r.Some? ==> (r.value.icon == WarningIcon <==> http.None? && !Enabled(https))
  {
    if http.Some? && https.Some? then
      if !http.value.enable && !https.value.enable then Some(Verdict(NeitherTitle, DangerIcon))
      else if http.value.enable && !https.value.enable then Some(Verdict(HttpOnlyTitle, SuccessIcon))
      else if !http.value.enable && https.value.enable then Some(Verdict(HttpsAfterRedirectTitle, SuccessIcon))
      else None
    else if http.None? && https.Some? then
      if https.value.enable then Some(Verdict(HttpsSetTitle, SuccessIcon))
      else Some(Verdict(HttpsUnsetTitle, WarningIcon))
    else if http.Some? && https.None? then
      if http.value.enable then Some(Verdict(HttpOnlyTitle, SuccessIcon))
      else Some(Verdict(HttpUnsetTitle, DangerIcon))
    else None
  }

  /** The whole table, row by row, with the exact tooltip titles. */
  lemma VerdictTable(a: string, b: string)
    ensures CheckHsts(Some(Hsts(false, a)), Some(Hsts(false, b))) == Some(Verdict(NeitherTitle, DangerIcon))
    ensures CheckHsts(Some(Hsts(true, a)), Some(Hsts(false, b))) == Some(Verdict(HttpOnlyTitle, SuccessIcon))
    ensures CheckHsts(Some(Hsts(false, a)), Some(Hsts(true, b))) == Some(Verdict(HttpsAfterRedirectTitle, SuccessIcon))
    ensures CheckHsts(Some(Hsts(true, a)), Some(Hsts(true, b))) == None
    ensures CheckHsts(None, Some(Hsts(true, b))) == Some(Verdict(HttpsSetTitle, SuccessIcon))
    ensures CheckHsts(None, Some(Hsts(false, b))) == Some(Verdict(HttpsUnsetTitle, WarningIcon))
    ensures CheckHsts(Some(Hsts(true, a)), None) == Some(Verdict(HttpOnlyTitle, SuccessIcon))
    ensures CheckHsts(Some(Hsts(false, a)), None) == Some(Verdict(HttpUnsetTitle, DangerIcon))
    ensures CheckHsts(None, None) == None
  {
  }

  /** Only the `enable` flags decide the verdict; the raw header values never do. */
  lemma VerdictIgnoresValues(http: Option<Hsts>, https: Option<Hsts>, http': Option<Hsts>, https': Option<Hsts>)
    requires http.Some? == http'.Some? && https.Some? == https'.Some?
    requires Enabled(http) == Enabled(http') && Enabled(https) == Enabled(https')
    ensures CheckHsts(http, https) == CheckHsts(http', https')
  {
  }
}
