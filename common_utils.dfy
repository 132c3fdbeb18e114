/** Site URL building and the spam-check stub of mozillians/common/utils.py. */
module CommonUtils {
  import opened Wrappers
  import opened Strings

  /** The settings `absolutify` reads: `SITE_URL` (absent or empty counts as unset),
      `PROTOCOL`, `DOMAIN` and `PORT`. */
  datatype SiteSettings = SiteSettings(siteUrl: Option<string>, protocol: string, domain: string, port: int)

  /** The port is the protocol's default: 443 for `https://`, 80 for `http://`. */
  predicate DefaultPort(protocol: string, port: int) {
    (protocol == "https://" && port == 443) || (protocol == "http://" && port == 80)
  }

  /** The site prefix: `SITE_URL` when set, else protocol and domain, with `:port` unless the
      port is the protocol's default. */
  function SiteUrl(s: SiteSettings): (r: string)
    ensures s.siteUrl.Some? && s.siteUrl.value != "" ==> r == s.siteUrl.value
    ensures (s.siteUrl.None? || s.siteUrl.value == "") && DefaultPort(s.protocol, s.port) ==>
      r == s.protocol + s.domain
    ensures (s.siteUrl.None? || s.siteUrl.value == "") && !DefaultPort(s.protocol, s.port) ==>
      r == s.protocol + s.domain + ":" + IntToDecimal(s.port)
  {
    if s.siteUrl.Some? && s.siteUrl.value != "" then s.siteUrl.value
    else if DefaultPort(s.protocol, s.port) then s.protocol + s.domain
    else s.protocol + s.domain + ":" + IntToDecimal(s.port)
  }

  /** `absolutify(url)`: the site prefix followed by `url`, so `SITE_URL + url` when the
      setting is present, and otherwise protocol and domain, with `:port` off the default
      ports, followed by `url`. */
  function Absolutify(s: SiteSettings, url: string): (r: string)
    ensures r == SiteUrl(s) + url
    ensures |url| <= |r| && r[|r| - |url|..] == url
  {
    var r := SiteUrl(s) + url;
    assert r[|r| - |url|..] == url;
    r
  }

  /** Without `SITE_URL` and on a port that is not the default, the port can be read back
      from the result: the digits between the domain's `:` and `url` denote it. */
  lemma AbsolutifyPortRoundTrip(s: SiteSettings, url: string)
    requires s.siteUrl.None? || s.siteUrl.value == ""
    requires !DefaultPort(s.protocol, s.port) && s.port >= 0
    ensures var r := Absolutify(s, url);
            var start := |s.protocol| + |s.domain| + 1;
            start <= |r| - |url| && r[start - 1] == ':'
            && AllDigits(r[start..|r| - |url|]) && DecimalValue(r[start..|r| - |url|]) == s.port
  {
    var r := Absolutify(s, url);
    var start := |s.protocol| + |s.domain| + 1;
    var digits := IntToDecimal(s.port);
    assert r == s.protocol + s.domain + ":" + digits + url;
    assert r[start - 1] == ':';
    assert r[start..|r| - |url|] == digits;
  }

  /** `akismet_spam_check`: the check is switched off and reports nothing. */
  function AkismetSpamCheck(userIp: string, userAgent: string): (r: Option<bool>)
    ensures r == None
  {
    None
  }
}
