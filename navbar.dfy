/**
 * The navigation bar's language switcher: the path rewrite run when a new
 * locale is chosen, and the select's options built from the locale list.
 */
module Navbar {
  import opened Wrappers
  import AreaCard

  predicate IsLowerAscii(c: char)
  {
    'a' <= c <= 'z'
  }

  /** What `[a-z]{2}` accepts: exactly two lower-case ASCII letters. */
  predicate IsLocaleCode(locale: string)
  {
    |locale| == 2 && IsLowerAscii(locale[0]) && IsLowerAscii(locale[1])
  }

  /** `/^\/[a-z]{2}/` matches at the start of the path. */
  predicate HasLocalePrefix(pathname: string)
  {
    |pathname| >= 3 && pathname[0] == '/' && IsLocaleCode(pathname[1..3])
  }

  /**
   * `pathname.replace(/^\/[a-z]{2}/, "")`: exactly the first three
   * characters go when they are `/` and two lower-case letters; otherwise
   * the path is kept. The match does not look at segment boundaries.
   */
  function StripLocale(pathname: string): (clean: string)
    ensures HasLocalePrefix(pathname) ==> pathname == pathname[..3] + clean
    ensures !HasLocalePrefix(pathname) ==> clean == pathname
  {
    if HasLocalePrefix(pathname) then pathname[3..] else pathname
  }

  /** `handleChange`'s new path: `/${newLocale}${cleanPath}`. */
  function LocalizedPath(pathname: string, newLocale: string): (path: string)
    ensures |path| > |newLocale| && path[..|newLocale| + 1] == "/" + newLocale
    ensures path[|newLocale| + 1..] == StripLocale(pathname)
  {
    "/" + newLocale + StripLocale(pathname)
  }

  /** A path that starts with `/` and a locale code loses exactly that prefix. */
  lemma StripPrefixed(locale: string, rest: string)
    requires IsLocaleCode(locale)
    ensures StripLocale("/" + locale + rest) == rest
  {
    var pathname := "/" + locale + rest;
    assert pathname[1..3] == locale;
    assert pathname[3..] == rest;
  }

  /** Choosing the locale that already prefixes the path leaves the path as it is. */
  lemma SameLocaleKeepsPath(locale: string, rest: string)
    requires IsLocaleCode(locale)
    ensures LocalizedPath("/" + locale + rest, locale) == "/" + locale + rest
  {
    StripPrefixed(locale, rest);
  }

  /** Switching twice is the same as switching once to the second locale. */
  lemma SwitchTwice(pathname: string, first: string, second: string)
    requires IsLocaleCode(first)
    ensures LocalizedPath(LocalizedPath(pathname, first), second) == LocalizedPath(pathname, second)
  {
    StripPrefixed(first, StripLocale(pathname));
  }

  /** The strip is not segment-aware: `/areas` loses `/ar`. */
  lemma AreasPathExample(pathname: string, newLocale: string)
    requires pathname == "/areas"
    ensures LocalizedPath(pathname, newLocale) == "/" + newLocale + "eas"
  {
    assert HasLocalePrefix(pathname);
    assert pathname[3..] == "eas";
  }

  /** Switching locale on a listing's detail page keeps the listing. */
  lemma SwitchAreaRoute(locale: string, newLocale: string, id: string)
    requires IsLocaleCode(locale)
    ensures LocalizedPath(AreaCard.AreaRoute(locale, id), newLocale) == AreaCard.AreaRoute(newLocale, id)
  {
    assert AreaCard.AreaRoute(locale, id) == "/" + locale + ("/areas/" + id);
    StripPrefixed(locale, "/areas/" + id);
  }

  /** An entry of the locale select: `{ value, label }`. */
  datatype SelectOption = SelectOption(value: string, text: string)

  const UzbekLatin: string := "Uzbek"
  /** "Ўзбек", the Cyrillic spelling. */
  const UzbekCyrillic: string := "\U{040E}\U{0437}\U{0431}\U{0435}\U{043A}"

  /**
   * `routing.locales?.map(...) || []`: one option per locale, in order,
   * labelled "Uzbek" for `uz` and "Ўзбек" for any other; no locales, no options.
   */
  function LocaleOptions(locales: Option<seq<string>>): (options: seq<SelectOption>)
    ensures locales.None? ==> options == []
    ensures locales.Some? ==> |options| == |locales.value|
    ensures locales.Some? ==> forall i :: 0 <= i < |options| ==>
      && options[i].value == locales.value[i]
      && (options[i].text == UzbekLatin <==> locales.value[i] == "uz")
      && (locales.value[i] != "uz" ==> options[i].text == UzbekCyrillic)
  {
    match locales
    case None => []
    case Some(codes) => OptionsFor(codes)
  }

  function OptionsFor(codes: seq<string>): (options: seq<SelectOption>)
    ensures |options| == |codes|
    ensures forall i :: 0 <= i < |codes| ==>
      && options[i].value == codes[i]
      && (options[i].text == UzbekLatin <==> codes[i] == "uz")
      && (codes[i] != "uz" ==> options[i].text == UzbekCyrillic)
  {
    if codes == [] then []
    else
      var text := if codes[0] == "uz" then UzbekLatin else UzbekCyrillic;
      [SelectOption(codes[0], text)] + OptionsFor(codes[1..])
  }
}
