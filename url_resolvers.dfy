/** Locale handling of request paths (mozillians/common/urlresolvers.py): which supported
    locales share a language with a requested tag, how a path splits into a locale and the
    rest, and how a `Prefixer` rebuilds a path under the site's language. Locales are BCP 47
    tags; matching compares the part before the first `-`, which loosely is the primary
    language subtag of section 2.2.1 of RFC 5646. */
module UrlResolvers {
  import opened Wrappers
  import opened Strings

  /** `LANGUAGE_URL_MAP`: lower-cased tag to the tag as configured, listed in the dict's
      iteration order. */
  type LanguageMap = seq<(string, string)>

  /** `x.split('-', 1)[0]`. */
  function LanguagePart(tag: string): string {
    Before(tag, '-')
  }

  /** The value of the first entry with key `key`, as a dict lookup. */
  function Lookup(m: LanguageMap, key: string): (r: Option<string>)
    ensures r.None? <==> forall i :: 0 <= i < |m| ==> m[i].0 != key
    ensures r.Some? ==> exists i :: (0 <= i < |m| && m[i].0 == key && m[i].1 == r.value
      && forall j :: 0 <= j < i ==> m[j].0 != key)
    decreases |m|
  {
    if m == [] then None
    else if m[0].0 == key then Some(m[0].1)
    else
      var r := Lookup(m[1..], key);
      assert forall i :: 1 <= i < |m| ==> m[i] == m[1..][i - 1];
      r
  }

  /** The entry's key shares its language part with the requested tag. */
  predicate SameLanguage(entry: (string, string), test: string) {
    LanguagePart(entry.0) == LanguagePart(Lower(test))
  }

  /** `find_supported(test)`: in map order, the values of the entries whose key has the
      same language part as `test` lower-cased. */
  function FindSupported(m: LanguageMap, test: string): (r: seq<string>)
    ensures |r| <= |m|
    decreases |m|
  {
    if m == [] then []
    else (if SameLanguage(m[0], test) then [m[0].1] else []) + FindSupported(m[1..], test)
  }

  /** The values `find_supported` returns are exactly those of the entries that share the
      language. */
  lemma {:induction false} FindSupportedMembership(m: LanguageMap, test: string, v: string)
    ensures v in FindSupported(m, test) <==> exists i :: 0 <= i < |m| && SameLanguage(m[i], test) && m[i].1 == v
    decreases |m|
  {
    if m != [] {
      FindSupportedMembership(m[1..], test, v);
      assert forall i :: 1 <= i < |m| ==> m[i] == m[1..][i - 1];
      if exists i :: 0 <= i < |m| && SameLanguage(m[i], test) && m[i].1 == v {
        var i :| 0 <= i < |m| && SameLanguage(m[i], test) && m[i].1 == v;
        if i > 0 {
          assert SameLanguage(m[1..][i - 1], test) && m[1..][i - 1].1 == v;
        }
      }
    }
  }

  /** When some entry shares the language, `find_supported` starts with the value of the
      first such entry in map order. */
  lemma {:induction false} FindSupportedFirst(m: LanguageMap, test: string, k: nat)
    requires k < |m| && SameLanguage(m[k], test)
    requires forall j :: 0 <= j < k ==> !SameLanguage(m[j], test)
    ensures FindSupported(m, test) != [] && FindSupported(m, test)[0] == m[k].1
    decreases k
  {
    if k > 0 {
      assert forall j :: 0 <= j < k - 1 ==> m[1..][j] == m[j + 1];
      FindSupportedFirst(m[1..], test, k - 1);
    }
  }

  /** No entry sharing the language means `find_supported` finds nothing. */
  lemma FindSupportedEmpty(m: LanguageMap, test: string)
    requires forall i :: 0 <= i < |m| ==> !SameLanguage(m[i], test)
    ensures FindSupported(m, test) == []
  {
    if FindSupported(m, test) != [] {
      FindSupportedMembership(m, test, FindSupported(m, test)[0]);
    }
  }

  /** `split_path`: strips the leading slashes; the first segment, lower-cased, names a locale
      by exact key, or else by language through `find_supported`, and the rest follows its
      slash; with no match the locale is `''` and the path is the whole stripped path. So
      the locale is `''` or a configured tag, and the path is a suffix of the request's. */
  function SplitPath(m: LanguageMap, path: string): (r: (string, string))
    ensures r.0 == "" || exists i :: 0 <= i < |m| && m[i].1 == r.0
    ensures EndsWith(path, r.1)
  {
    var stripped := LStrip(path, '/');
    var (first, _, rest) := Partition(stripped, '/');
    PartitionRestEndsWith(stripped, '/');
    EndsWithTrans(path, stripped, rest);
    var lang := Lower(first);
    match Lookup(m, lang)
    case Some(locale) => (locale, rest)
    case None =>
      var supported := FindSupported(m, first);
      if |supported| > 0 then
        FindSupportedMembership(m, first, supported[0]);
        (supported[0], rest)
      else ("", stripped)
  }

  /** The three outcomes of `split_path`, by the first segment of the slash-stripped path. */
  lemma SplitPathCases(m: LanguageMap, path: string)
    ensures var stripped := LStrip(path, '/');
            var first := Partition(stripped, '/').0;
            var rest := Partition(stripped, '/').2;
            (Lookup(m, Lower(first)).Some? ==> SplitPath(m, path) == (Lookup(m, Lower(first)).value, rest))
            && (Lookup(m, Lower(first)).None? && (exists i :: 0 <= i < |m| && SameLanguage(m[i], first)) ==>
                 exists k :: 0 <= k < |m| && SameLanguage(m[k], first) && SplitPath(m, path) == (m[k].1, rest)
                   && forall j :: 0 <= j < k ==> !SameLanguage(m[j], first))
            && (Lookup(m, Lower(first)).None? && (forall i :: 0 <= i < |m| ==> !SameLanguage(m[i], first)) ==>
                 SplitPath(m, path) == ("", stripped))
  {
    var stripped := LStrip(path, '/');
    var first := Partition(stripped, '/').0;
    if Lookup(m, Lower(first)).None? {
      if exists i :: 0 <= i < |m| && SameLanguage(m[i], first) {
        var k := FirstSameLanguage(m, first);
        FindSupportedFirst(m, first, k);
      } else {
        FindSupportedEmpty(m, first);
      }
    }
  }

  /** The least index of an entry sharing the language. */
  lemma FirstSameLanguage(m: LanguageMap, test: string) returns (k: nat)
    requires exists i :: 0 <= i < |m| && SameLanguage(m[i], test)
    ensures k < |m| && SameLanguage(m[k], test) && forall j :: 0 <= j < k ==> !SameLanguage(m[j], test)
  {
    k := 0;
    while !SameLanguage(m[k], test)
      invariant k < |m| && forall j :: 0 <= j < k ==> !SameLanguage(m[j], test)
      invariant exists i :: k <= i < |m| && SameLanguage(m[i], test)
      decreases |m| - k
    {
      k := k + 1;
    }
  }

  /** A `Prefixer` built for a request: the path without its locale, and the locale, which is
      always the site's `LANGUAGE_CODE`. */
  datatype Prefixer = Prefixer(scriptName: string, languageCode: string, shortenedPath: string, locale: string)

  /** `Prefixer.__init__`. */
  function NewPrefixer(m: LanguageMap, pathInfo: string, scriptName: string, languageCode: string): (p: Prefixer)
    ensures p.shortenedPath == SplitPath(m, pathInfo).1
    ensures p.locale == languageCode && p.scriptName == scriptName && p.languageCode == languageCode
  {
    Prefixer(scriptName, languageCode, SplitPath(m, pathInfo).1, GetLanguage(languageCode))
  }

  /** `Prefixer.get_language`: the site's language. */
  function GetLanguage(languageCode: string): string {
    languageCode
  }

  /** `get_language` ignores the request: two requests whose paths name different locales
      get the same locale and rebuild every path the same way. */
  lemma GetLanguageIgnoresRequest(m: LanguageMap, pathInfo: string, pathInfo': string, scriptName: string,
                                  languageCode: string, path: string)
    ensures NewPrefixer(m, pathInfo, scriptName, languageCode).locale
         == NewPrefixer(m, pathInfo', scriptName, languageCode).locale == languageCode
    ensures Fix(NewPrefixer(m, pathInfo, scriptName, languageCode), path)
         == Fix(NewPrefixer(m, pathInfo', scriptName, languageCode), path)
  {
  }

  /** `Prefixer.fix(path)`: the script name, the language and the path without its leading
      slashes, joined by `/`. */
  function Fix(p: Prefixer, path: string): (r: string)
    ensures r == p.scriptName + "/" + p.languageCode + "/" + LStrip(path, '/')
  {
    var parts := [p.scriptName, GetLanguage(p.languageCode), LStrip(path, '/')];
    parts[0] + "/" + parts[1] + "/" + parts[2]
  }

  /** Partitioning a segment without `/` followed by `/` and more gives back the segment. */
  lemma {:induction false} PartitionAtSlash(seg: string, rest: string)
    requires '/' !in seg
    ensures Partition(seg + "/" + rest, '/') == (seg, true, rest)
    decreases |seg|
  {
    var s := seg + "/" + rest;
    if seg == [] {
      assert s == "/" + rest;
    } else {
      assert seg[0] in seg;
      assert s[1..] == seg[1..] + "/" + rest;
      assert '/' !in seg[1..] by {
        assert forall x :: x in seg[1..] ==> x in seg;
      }
      PartitionAtSlash(seg[1..], rest);
      assert [seg[0]] + seg[1..] == seg;
    }
  }

  /** Stripping the slashes of `/<seg>/<rest>` leaves `<seg>/<rest>` when `seg` is a
      non-empty segment. */
  lemma LStripLeadingSlash(seg: string, rest: string)
    requires seg != [] && '/' !in seg
    ensures LStrip("/" + seg + "/" + rest, '/') == seg + "/" + rest
  {
    var s := "/" + seg + "/" + rest;
    assert s[1..] == seg + "/" + rest;
    assert seg[0] in seg;
    assert s[1..][0] == seg[0];
  }

  /** Round trip: with an empty script name, `split_path` of a path the `Prefixer` fixed
      gives back the site's language (when the map knows it by its lower-cased key) and the
      path without its leading slashes. */
  lemma SplitFixRoundTrip(m: LanguageMap, p: Prefixer, path: string)
    requires p.scriptName == "" && p.languageCode != [] && '/' !in p.languageCode
    requires Lookup(m, Lower(p.languageCode)) == Some(p.languageCode)
    ensures SplitPath(m, Fix(p, path)) == (p.languageCode, LStrip(path, '/'))
  {
    var lang := p.languageCode;
    var tail := LStrip(path, '/');
    var fixed := Fix(p, path);
    assert p.scriptName + "/" == "/";
    assert fixed == "/" + lang + "/" + tail;
    LStripLeadingSlash(lang, tail);
    var stripped := LStrip(fixed, '/');
    assert stripped == lang + "/" + tail;
    PartitionAtSlash(lang, tail);
    assert Partition(stripped, '/') == (lang, true, tail);
  }
}
