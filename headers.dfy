/**
 * The HSTS header extractor: scans the response headers of one response for
 * `Strict-Transport-Security` (section 6.1 of RFC 6797), case-insensitively,
 * and records whether it was present and its raw value. Directives such as
 * `max-age` are not parsed.
 */
module Headers {

  /** One entry of a response's header list. */
  datatype Header = Header(name: string, value: string)

  /** What the extension keeps of one response: presence of the header and its raw value. */
  datatype Hsts = Hsts(enable: bool, value: string)

  const HstsName: string := "strict-transport-security"

  /** The value findHeader starts from: header absent, empty value. */
  const Absent: Hsts := Hsts(false, "")

  /** Lower-casing of one character (ASCII letters only). */
  function LowerChar(c: char): char
  {
    if 'A' <= c <= 'Z' then (c as int + 32) as char else c
  }

  function ToLower(s: string): string
  {
    seq(|s|, i requires 0 <= i < |s| => LowerChar(s[i]))
  }

  /** Upper-casing of one character (ASCII letters only). */
  function UpperChar(c: char): char
  {
    if 'a' <= c <= 'z' then (c as int - 32) as char else c
  }

  /** A character lower-cases to `d`, itself no upper-case letter, iff it is `d` or `d` upper-cased. */
  lemma LowerCharInverse(c: char, d: char)
    requires !('A' <= d <= 'Z')
    ensures LowerChar(c) == d <==> c == d || c == UpperChar(d)
  {
  }

  /** Lower-casing a name gives `strict-transport-security` iff each character is in either case. */
  lemma MatchesEitherCase(name: string)
    ensures ToLower(name) == HstsName <==> (|name| == |HstsName| &&
      forall i :: 0 <= i < |name| ==> name[i] == HstsName[i] || name[i] == UpperChar(HstsName[i]))
  {
    if |name| == |HstsName| {
      forall i | 0 <= i < |name|
        ensures LowerChar(name[i]) == HstsName[i] <==> name[i] == HstsName[i] || name[i] == UpperChar(HstsName[i])
      {
        LowerCharInverse(name[i], HstsName[i]);
      }
    }
  }

  /**
   * Whether a header is the HSTS header: its name is `strict-transport-security`
   * with each character in either case.
   */
  function IsHsts(h: Header): (r: bool)
    ensures r <==> (|h.name| == |HstsName| &&
      forall i :: 0 <= i < |h.name| ==> h.name[i] == HstsName[i] || h.name[i] == UpperChar(HstsName[i]))
  {
    MatchesEitherCase(h.name);
    ToLower(h.name) == HstsName
  }

  /**
   * Specification of the scan: a left fold over the headers in order, where
   * every matching header overwrites what was recorded before.
   */
  function LastHsts(headers: seq<Header>): Hsts
  {
    if headers == [] then Absent
    else
      var h := headers[|headers| - 1];
      if IsHsts(h) then Hsts(true, h.value) else LastHsts(headers[..|headers| - 1])
  }

  /** The header is reported absent, with an empty value, exactly when no header matches. */
  lemma {:induction false} LastHstsAbsent(headers: seq<Header>)
    ensures !LastHsts(headers).enable <==> forall i :: 0 <= i < |headers| ==> !IsHsts(headers[i])
    ensures !LastHsts(headers).enable ==> LastHsts(headers).value == ""
  {
    if headers != [] {
      var init := headers[..|headers| - 1];
      LastHstsAbsent(init);
      assert forall i :: 0 <= i < |init| ==> init[i] == headers[i];
    }
  }

  /** The last matching header wins: its value is the one recorded. */
  lemma {:induction false} LastHstsLastMatch(headers: seq<Header>, i: int)
    requires 0 <= i < |headers| && IsHsts(headers[i])
    requires forall j :: i < j < |headers| ==> !IsHsts(headers[j])
    ensures LastHsts(headers) == Hsts(true, headers[i].value)
  {
    if i < |headers| - 1 {
      var init := headers[..|headers| - 1];
      assert init[i] == headers[i];
      assert forall j :: i < j < |init| ==> init[j] == headers[j];
      LastHstsLastMatch(init, i);
    }
  }

  /** When the header is present, some matching header with no match after it supplied the value. */
  lemma {:induction false} LastHstsWitness(headers: seq<Header>) returns (i: int)
    requires LastHsts(headers).enable
    ensures 0 <= i < |headers| && IsHsts(headers[i])
    ensures forall j :: i < j < |headers| ==> !IsHsts(headers[j])
    ensures LastHsts(headers).value == headers[i].value
  {
    var last := |headers| - 1;
    if IsHsts(headers[last]) {
      i := last;
    } else {
      var init := headers[..last];
      i := LastHstsWitness(init);
      assert headers[i] == init[i];
      assert forall j :: i < j < |init| ==> init[j] == headers[j];
    }
  }

  /** The header's canonical spelling matches, and of two matching headers the later one is kept. */
  lemma CanonicalSpellingMatches(first: string, second: string)
    ensures IsHsts(Header("Strict-Transport-Security", first))
    ensures LastHsts([Header("Strict-Transport-Security", first), Header("Content-Type", "text/html"),
                      Header("STRICT-TRANSPORT-SECURITY", second)]) == Hsts(true, second)
  {
    var canonical, upper := "Strict-Transport-Security", "STRICT-TRANSPORT-SECURITY";
    forall i | 0 <= i < |canonical| ensures LowerChar(canonical[i]) == HstsName[i] { }
    forall i | 0 <= i < |upper| ensures LowerChar(upper[i]) == HstsName[i] { }
    assert ToLower(canonical) == HstsName;
    assert ToLower(upper) == HstsName;
    assert ToLower("Content-Type") != HstsName;
  }

  /**
   * findHeader: one pass over the headers, overwriting the recorded value at
   * every match.
   */
  method FindHeader(headers: seq<Header>) returns (hsts: Hsts)
    ensures hsts == LastHsts(headers)
    ensures !hsts.enable <==> forall i :: 0 <= i < |headers| ==> !IsHsts(headers[i])
    ensures !hsts.enable ==> hsts.value == ""
    ensures hsts.enable ==>
      exists i :: 0 <= i < |headers| && IsHsts(headers[i]) && hsts.value == headers[i].value &&
        forall j :: i < j < |headers| ==> !IsHsts(headers[j])
  {
    hsts := Hsts(false, "");
    for index := 0 to |headers|
      invariant hsts == LastHsts(headers[..index])
    {
      var header := headers[index];
      assert headers[..index + 1][..index] == headers[..index];
      if ToLower(header.name) == HstsName {
        hsts := hsts.(enable := true, value := header.value);
      }
    }
    assert headers[..|headers|] == headers;
    LastHstsAbsent(headers);
    if hsts.enable {
      var i := LastHstsWitness(headers);
    }
  }
}
