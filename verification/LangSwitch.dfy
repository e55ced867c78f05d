/**
 The language switch of the static site: a prefix per translation, one redirect policy, and no
 loop. A location is its path, its query parameters and its fragment; the store is one entry of
 the browser's local storage, which may refuse to work.
 */
module LangSwitch {
  import opened Strings
  import opened Wrappers

  /** The published site: where it lives, its canonical language, and every language it serves. */
  datatype Config = Config(base: string, default: string, codes: seq<string>)

  datatype Parameter = Parameter(key: string, value: string)

  datatype Location = Location(pathname: string, query: seq<Parameter>, hash: string)

  /** Language codes can be one path segment. */
  ghost predicate WellFormed(c: Config) {
    forall code :: code in c.codes ==> code != "" && '/' !in code
  }

  // ---------- Paths

  /** JavaScript's slice from an index, which may lie past the end. */
  function Drop(s: string, n: nat): string {
    if n <= |s| then s[n..] else ""
  }

  /** The second part of a path split at its slashes, if there is one. */
  function FirstSegment(path: string): Option<string> {
    var head := UpTo(path, '/');
    if |head| == |path| then None else Some(UpTo(path[|head| + 1..], '/'))
  }

  function SitePath(c: Config, l: Location): string {
    var path := if c.base != "" && c.base <= l.pathname then l.pathname[|c.base|..] else l.pathname;
    if path == "" then "/" else path
  }

  /** A path with this first segment belongs to a translation. */
  predicate IsTranslation(c: Config, segment: Option<string>) {
    segment.Some? && segment.value != "" && segment.value != c.default && segment.value in c.codes
  }

  function CurrentCode(c: Config, l: Location): string {
    var segment := FirstSegment(SitePath(c, l));
    if IsTranslation(c, segment) then segment.value else c.default
  }

  /** The page's path without its language prefix. */
  function PagePath(c: Config, l: Location): string {
    var path := SitePath(c, l);
    var current := CurrentCode(c, l);
    if current == c.default then path
    else
      var rest := Drop(path, |current| + 1);
      if rest == "" then "/" else rest
  }

  function WithoutLang(query: seq<Parameter>): (r: seq<Parameter>)
    ensures forall p :: p in r ==> p.key != "lang"
  {
    if query == [] then []
    else (if query[0].key == "lang" then [] else [query[0]]) + WithoutLang(query[1..])
  }

  function LangParameter(query: seq<Parameter>): (r: Option<string>)
    ensures r.Some? ==> exists p :: p in query && p.key == "lang"
  {
    if query == [] then None
    else if query[0].key == "lang" then Some(query[0].value)
    else LangParameter(query[1..])
  }

  /** Where this page lives in a given language. */
  function UrlFor(c: Config, l: Location, code: string): Location {
    var path := PagePath(c, l);
    var target := if code == c.default then path else "/" + code + path;
    Location(c.base + target, WithoutLang(l.query), l.hash)
  }

  // ---------- The policy

  /** The published language a browser's tag asks for: the tag itself, else its base language. */
  function Match(c: Config, wanted: string): Option<string> {
    var tag := Lower(wanted);
    var base := UpTo(tag, '-');
    if tag in c.codes then Some(tag) else if base in c.codes then Some(base) else None
  }

  function Detected(c: Config, wanted: seq<string>): Option<string> {
    if wanted == [] then None
    else if Match(c, wanted[0]).Some? then Match(c, wanted[0])
    else Detected(c, wanted[1..])
  }

  method DetectedCode(c: Config, wanted: seq<string>) returns (r: Option<string>)
    ensures r == Detected(c, wanted)
  {
    for index := 0 to |wanted|
      invariant Detected(c, wanted) == Detected(c, wanted[index..])
    {
      var tag := Lower(wanted[index]);
      if tag in c.codes {
        return Some(tag);
      }
      var base := UpTo(tag, '-');
      if base in c.codes {
        return Some(base);
      }
    }
    return None;
  }

  /** The first browser language that is published decides, and nothing after it. */
  lemma {:induction false} DetectedIsFirstMatch(c: Config, wanted: seq<string>)
    ensures match Detected(c, wanted)
      case None => forall i :: 0 <= i < |wanted| ==> Match(c, wanted[i]).None?
      case Some(code) => exists i :: 0 <= i < |wanted| && Match(c, wanted[i]) == Some(code)
                           && (forall j :: 0 <= j < i ==> Match(c, wanted[j]).None?)
  {
    if wanted != [] && Match(c, wanted[0]).None? {
      DetectedIsFirstMatch(c, wanted[1..]);
      assert forall i :: 1 <= i < |wanted| ==> wanted[i] == wanted[1..][i - 1];
      if Detected(c, wanted).Some? {
        var i :| 0 <= i < |wanted| - 1 && Match(c, wanted[1..][i]) == Detected(c, wanted)
          && forall j :: 0 <= j < i ==> Match(c, wanted[1..][j]).None?;
        assert forall j :: 1 <= j < i + 1 ==> wanted[j] == wanted[1..][j - 1];
      }
    }
  }

  predicate Chosen(o: Option<string>) {
    o.Some? && o.value != ""
  }

  /** The explicit override in the query, if it names a published language. */
  function Override(c: Config, l: Location): Option<string> {
    var o := LangParameter(l.query);
    if Chosen(o) && o.value in c.codes then o else None
  }

  /** Where a load sends the browser, and what it writes down. */
  datatype Routing = Routing(redirect: Option<Location>, remembered: Option<string>)

  function Route(c: Config, l: Location, stored: Option<string>, wanted: seq<string>): Routing {
    var current := CurrentCode(c, l);
    match Override(c, l)
    case Some(code) => Routing(if code != current then Some(UrlFor(c, l, code)) else None, Some(code))
    case None =>
      if current != c.default then Routing(None, if Chosen(stored) then None else Some(current))
      else
        var detected := Detected(c, wanted);
        var choice := if Chosen(stored) then stored.value else if detected.Some? then detected.value else c.default;
        Routing(if choice != c.default && choice in c.codes then Some(UrlFor(c, l, choice)) else None,
                if Chosen(stored) then None else Some(choice))
  }

  /** A browser tab on the site. Reading or writing storage that does not work changes nothing. */
  class Browser {
    const config: Config
    const wanted: seq<string>
    const working: bool
    var location: Location
    var stored: Option<string>

    constructor (config: Config, wanted: seq<string>, working: bool, location: Location, stored: Option<string>)
      ensures this.config == config && this.wanted == wanted && this.working == working
      ensures this.location == location && this.stored == stored
    {
      this.config, this.wanted, this.working, this.location, this.stored := config, wanted, working, location, stored;
    }

    function StoredChoice(): Option<string>
      reads this
    {
      if working then stored else None
    }

    method Remember(code: string)
      modifies this`stored
      ensures stored == if working then Some(code) else old(stored)
    {
      if working {
        stored := Some(code);
      }
    }

    /** One load of the page, and whether it ends in a redirect. */
    method Load() returns (redirected: bool)
      modifies this
      ensures var r := Route(config, old(location), old(StoredChoice()), wanted);
        && redirected == r.redirect.Some?
        && location == (if r.redirect.Some? then r.redirect.value else old(location))
        && stored == (if working && r.remembered.Some? then r.remembered else old(stored))
    {
      var current := CurrentCode(config, location);
      var override := LangParameter(location.query);
      if Chosen(override) && override.value in config.codes {
        Remember(override.value);
        if override.value != current {
          location := UrlFor(config, location, override.value);
          return true;
        }
        return false;
      }
      if current != config.default {
        if !Chosen(StoredChoice()) {
          Remember(current);
        }
        return false;
      }
      var choice;
      if Chosen(StoredChoice()) {
        choice := StoredChoice().value;
      } else {
        var detected := DetectedCode(config, wanted);
        choice := if detected.Some? then detected.value else config.default;
        Remember(choice);
      }
      if choice != config.default && choice in config.codes {
        location := UrlFor(config, location, choice);
        return true;
      }
      return false;
    }
  }

  // ---------- Prefixing and stripping

  /** The page lies under the base: its site path is an absolute one. */
  predicate OnSite(c: Config, l: Location) {
    SitePath(c, l)[0] == '/'
  }

  /** No page of a translation hides behind the page's own first segment. */
  predicate Plain(c: Config, path: string) {
    !IsTranslation(c, FirstSegment(path))
  }

  lemma SegmentOfPrefixed(code: string, path: string)
    requires '/' !in code && path != "" && path[0] == '/'
    ensures FirstSegment("/" + code + path) == Some(code)
  {
    var full := "/" + code + path;
    assert UpTo(full, '/') == "";
    assert full[1..] == code + path;
    UpToOfConcat(code, path, '/');
  }

  /** Whatever is published under the base is found there again. */
  lemma SitePathOfPublished(c: Config, target: string, query: seq<Parameter>, hash: string)
    requires target != ""
    ensures SitePath(c, Location(c.base + target, query, hash)) == target
  {
    assert (c.base + target)[|c.base|..] == target;
  }

  lemma PagePathIsAbsolute(c: Config, l: Location)
    requires WellFormed(c)
    ensures PagePath(c, l) != ""
    ensures OnSite(c, l) ==> PagePath(c, l)[0] == '/'
  {
    var path, current := SitePath(c, l), CurrentCode(c, l);
    if current != c.default && OnSite(c, l) {
      assert UpTo(path, '/') == "";
      assert path[1..][..|current|] == current;
      if |current| + 1 < |path| {
        assert path[1..][|current|] == '/';
        assert Drop(path, |current| + 1)[0] == '/';
      }
    }
  }

  /**
   Switching reaches the language asked for exactly when a prefix is added or the page's own first
   segment is not itself a published code, and it then keeps the page.
   */
  lemma SwitchReachesLanguage(c: Config, l: Location, code: string)
    requires WellFormed(c) && OnSite(c, l) && (code == c.default || code in c.codes)
    ensures var there := UrlFor(c, l, code);
      && OnSite(c, there) && Override(c, there).None?
      && (CurrentCode(c, there) == code <==> (code != c.default || Plain(c, PagePath(c, l))))
      && (CurrentCode(c, there) == code ==> PagePath(c, there) == PagePath(c, l))
  {
    hide CurrentCode, PagePath, SitePath, Plain, LangParameter, WithoutLang;
    PagePathIsAbsolute(c, l);
    var page := PagePath(c, l);
    SitePathOfPublished(c, if code == c.default then page else "/" + code + page, WithoutLang(l.query), l.hash);
    if code == c.default {
      CanonicalPage(c, UrlFor(c, l, code), page);
    } else {
      PrefixedPage(c, UrlFor(c, l, code), code, page);
    }
  }

  lemma PrefixedPage(c: Config, l: Location, code: string, page: string)
    requires WellFormed(c) && code in c.codes && code != c.default
    requires page != "" && page[0] == '/' && SitePath(c, l) == "/" + code + page
    ensures CurrentCode(c, l) == code && PagePath(c, l) == page
  {
    hide SitePath, FirstSegment;
    SegmentOfPrefixed(code, page);
    assert Drop("/" + code + page, |code| + 1) == page;
  }

  lemma CanonicalPage(c: Config, l: Location, page: string)
    requires SitePath(c, l) == page
    ensures CurrentCode(c, l) == c.default <==> Plain(c, page)
    ensures CurrentCode(c, l) == c.default ==> PagePath(c, l) == page
  {
    hide SitePath, FirstSegment;
  }

  /** Switching away and back is switching once: prefixing and stripping undo each other. */
  lemma SwitchesUndo(c: Config, l: Location, away: string, back: string)
    requires WellFormed(c) && OnSite(c, l)
    requires (away in c.codes && away != c.default) || (away == c.default && Plain(c, PagePath(c, l)))
    ensures UrlFor(c, UrlFor(c, l, away), back) == UrlFor(c, l, back)
  {
    hide UpTo, FirstSegment, Drop, SitePath, CurrentCode, PagePath, WithoutLang;
    SwitchReachesLanguage(c, l, away);
    WithoutLangTwice(l.query);
  }

  lemma {:induction false} WithoutLangTwice(query: seq<Parameter>)
    ensures WithoutLang(WithoutLang(query)) == WithoutLang(query)
  {
    if query != [] {
      WithoutLangTwice(query[1..]);
      var rest := WithoutLang(query[1..]);
      if query[0].key == "lang" {
        assert WithoutLang(query) == rest;
      } else {
        assert WithoutLang(query)[1..] == rest;
      }
    }
  }

  // ---------- The chain of redirects

  /** The pages visited, with whatever storage answers at each load. */
  function Chain(c: Config, l: Location, answers: seq<Option<string>>, wanted: seq<string>): seq<Location>
    decreases |answers|
  {
    if answers == [] then [l]
    else
      match Route(c, l, answers[0], wanted).redirect
      case None => [l]
      case Some(next) => [l] + Chain(c, next, answers[1..], wanted)
  }

  /** How many more redirects a location can cause. */
  function Rank(c: Config, l: Location): nat {
    if Override(c, l).Some? then (if OnSite(c, l) then 2 else 3)
    else if CurrentCode(c, l) != c.default then 0
    else if OnSite(c, l) then 1
    else 2
  }

  lemma RedirectLowersRank(c: Config, l: Location, stored: Option<string>, wanted: seq<string>)
    requires WellFormed(c) && Route(c, l, stored, wanted).redirect.Some?
    ensures Rank(c, Route(c, l, stored, wanted).redirect.value) < Rank(c, l)
  {
    hide UpTo, Lower, Match, FirstSegment, Drop;
    PagePathIsAbsolute(c, l);
    var code := if Override(c, l).Some? then Override(c, l).value
                else if Chosen(stored) then stored.value else Detected(c, wanted).value;
    var next := UrlFor(c, l, code);
    var page := PagePath(c, l);
    SitePathOfPublished(c, if code == c.default then page else "/" + code + page, WithoutLang(l.query), l.hash);
    assert Override(c, next).None?;
    if OnSite(c, l) { SwitchReachesLanguage(c, l, code); }
  }

  /**
   Redirects cannot loop, whatever storage answers and however often: at most two for a page under
   the base, and at most three from any path at all.
   */
  lemma {:induction false} ChainIsBounded(c: Config, l: Location, answers: seq<Option<string>>, wanted: seq<string>)
    requires WellFormed(c)
    ensures |Chain(c, l, answers, wanted)| <= Rank(c, l) + 1
    ensures |Chain(c, l, answers, wanted)| <= if OnSite(c, l) then 3 else 4
    decreases |answers|
  {
    if answers != [] && Route(c, l, answers[0], wanted).redirect.Some? {
      RedirectLowersRank(c, l, answers[0], wanted);
      ChainIsBounded(c, Route(c, l, answers[0], wanted).redirect.value, answers[1..], wanted);
    }
  }

  /** What storage that works holds after a load. */
  function Kept(stored: Option<string>, r: Routing): Option<string> {
    if r.remembered.Some? then r.remembered else stored
  }

  /** The language the reader should end up in, in the order of the site's policy. */
  function Preferred(c: Config, l: Location, stored: Option<string>, wanted: seq<string>): string {
    if Override(c, l).Some? then Override(c, l).value
    else if CurrentCode(c, l) != c.default then CurrentCode(c, l)
    else if Chosen(stored) then (if stored.value in c.codes then stored.value else c.default)
    else if Detected(c, wanted).Some? then Detected(c, wanted).value
    else c.default
  }

  lemma DetectedIsPublished(c: Config, wanted: seq<string>)
    ensures Detected(c, wanted).Some? ==> Detected(c, wanted).value in c.codes
  {
  }

  /**
   With storage that works there is at most one redirect: the page it leads to, or the page itself,
   stays. The reader is then in the preferred language, unless the canonical version of this page
   was asked for and its own first segment is a published code.
   */
  lemma OneRedirectToPreferred(c: Config, l: Location, stored: Option<string>, wanted: seq<string>)
    requires WellFormed(c) && OnSite(c, l)
    ensures var r := Route(c, l, stored, wanted);
      var final := if r.redirect.Some? then r.redirect.value else l;
      && (r.redirect.Some? ==> Route(c, final, Kept(stored, r), wanted).redirect.None?)
      && (CurrentCode(c, final) == Preferred(c, l, stored, wanted)
          <==> (r.redirect.Some? && Preferred(c, l, stored, wanted) == c.default ==> Plain(c, PagePath(c, l))))
  {
    hide CurrentCode, PagePath, SitePath, UrlFor, Plain, OnSite, Detected, LangParameter;
    DetectedIsPublished(c, wanted);
    if Route(c, l, stored, wanted).redirect.Some? {
      SwitchReachesLanguage(c, l, Preferred(c, l, stored, wanted));
    }
  }

  /** A redirect to a translation always leads to a page of the site. */
  lemma TranslationIsOnSite(c: Config, l: Location, code: string)
    requires WellFormed(c) && code != c.default
    ensures OnSite(c, UrlFor(c, l, code)) && Override(c, UrlFor(c, l, code)).None?
  {
    hide PagePath, CurrentCode, SitePath;
    SitePathOfPublished(c, "/" + code + PagePath(c, l), WithoutLang(l.query), l.hash);
  }

  lemma CanonicalHasNoOverride(c: Config, l: Location, code: string)
    ensures Override(c, UrlFor(c, l, code)).None?
  {
    hide PagePath, CurrentCode;
  }

  /**
   From any path at all, one that merely begins with the text of the base included, storage that
   works allows at most two: the first leads to a page of the site, or was to the canonical version.
   */
  lemma TwoRedirectsFromAnyPath(c: Config, l: Location, stored: Option<string>, wanted: seq<string>)
    requires WellFormed(c)
    ensures var r := Route(c, l, stored, wanted);
      r.redirect.Some? ==>
        var kept := Kept(stored, r);
        var r' := Route(c, r.redirect.value, kept, wanted);
        r'.redirect.Some? ==> Route(c, r'.redirect.value, Kept(kept, r'), wanted).redirect.None?
  {
    hide CurrentCode, PagePath, SitePath, UrlFor, Plain, OnSite, Detected, LangParameter;
    var r := Route(c, l, stored, wanted);
    if r.redirect.Some? {
      var code := if Override(c, l).Some? then Override(c, l).value
                  else if Chosen(stored) then stored.value else Detected(c, wanted).value;
      CanonicalHasNoOverride(c, l, code);
      assert r.redirect.value == UrlFor(c, l, code);
      if code != c.default {
        TranslationIsOnSite(c, l, code);
        OneRedirectToPreferred(c, r.redirect.value, Kept(stored, r), wanted);
      } else if code != "" {
        assert Kept(stored, r) == Some(c.default);
      }
    }
  }

  // ---------- What a switch carries along

  lemma {:induction false} CarriedInPlace(a: seq<Parameter>, b: seq<Parameter>)
    ensures WithoutLang(a + b) == WithoutLang(a) + WithoutLang(b)
  {
    if a == [] {
      assert a + b == b;
    } else {
      assert (a + b)[1..] == a[1..] + b;
      CarriedInPlace(a[1..], b);
    }
  }

  /** A switch drops the override and carries every other parameter, in its place. */
  lemma OthersAreCarried(a: seq<Parameter>, p: Parameter, b: seq<Parameter>)
    ensures WithoutLang(a + [p] + b)
         == WithoutLang(a) + (if p.key == "lang" then [] else [p]) + WithoutLang(b)
  {
    assert [p][1..] == [];
    assert WithoutLang([p]) == if p.key == "lang" then [] else [p];
    hide WithoutLang;
    CarriedInPlace(a + [p], b);
    CarriedInPlace(a, [p]);
  }

  /** The address of a switch: the base, the prefix unless canonical, the page, the parameters, the fragment. */
  lemma SwitchAddress(c: Config, l: Location, code: string)
    ensures UrlFor(c, l, code).hash == l.hash && UrlFor(c, l, code).query == WithoutLang(l.query)
    ensures UrlFor(c, l, code).pathname
         == if code == c.default then c.base + PagePath(c, l) else c.base + ("/" + code + PagePath(c, l))
  {
    hide PagePath, WithoutLang;
  }

  /** The tag as announced, in lower case, comes before its base language; nothing else is a match. */
  lemma TagBeforeBase(c: Config, wanted: string, tag: string, base: string)
    requires |tag| == |wanted|
    requires forall i :: 0 <= i < |tag| ==>
      tag[i] == if 'A' <= wanted[i] <= 'Z' then wanted[i] + ('a' - 'A') else wanted[i]
    requires |base| <= |tag| && base == tag[..|base|] && '-' !in base && (|base| < |tag| ==> tag[|base|] == '-')
    ensures Match(c, wanted) == if tag in c.codes then Some(tag) else if base in c.codes then Some(base) else None
  {
    assert Lower(wanted) == tag by {
      forall i | 0 <= i < |wanted| ensures |Lower(wanted)| == |wanted| && Lower(wanted)[i] == tag[i] {
        LowerAt(wanted, i);
      }
      if wanted == "" { assert Lower(wanted) == ""; }
    }
    assert tag == base + tag[|base|..];
    UpToOfConcat(base, tag[|base|..], '-');
  }

  // ---------- Decided once

  /**
   Where storage works, every load leaves a choice behind: the override, or the choice already made,
   or the translation landed on, or what the browser asks for.
   */
  lemma ChoiceIsRemembered(c: Config, l: Location, stored: Option<string>, wanted: seq<string>)
    ensures var kept := Kept(stored, Route(c, l, stored, wanted));
      if Override(c, l).Some? then kept == Override(c, l)
      else if Chosen(stored) then kept == stored
      else if CurrentCode(c, l) != c.default then kept == Some(CurrentCode(c, l))
      else kept == if Detected(c, wanted).Some? then Detected(c, wanted) else Some(c.default)
  {
    hide CurrentCode, Detected, Override, UrlFor;
  }

  /** So no later visit asks the browser again, whatever it would answer. */
  lemma NeverDetectedAgain(c: Config, l: Location, stored: Option<string>, wanted: seq<string>,
                           later: Location, other: seq<string>)
    requires WellFormed(c) && c.default != ""
    ensures var kept := Kept(stored, Route(c, l, stored, wanted));
      Route(c, later, kept, wanted) == Route(c, later, kept, other)
  {
    ChoiceIsRemembered(c, l, stored, wanted);
    DetectedIsPublished(c, wanted);
    OverrideIsPublished(c, l);
    CurrentIsNamed(c, l);
    hide CurrentCode, Detected, Override, UrlFor, Kept;
  }

  lemma OverrideIsPublished(c: Config, l: Location)
    ensures Override(c, l).Some? ==> Override(c, l).value in c.codes && Override(c, l).value != ""
  {
    hide LangParameter;
  }

  lemma CurrentIsNamed(c: Config, l: Location)
    ensures CurrentCode(c, l) != c.default ==> CurrentCode(c, l) != ""
  {
    hide SitePath, FirstSegment;
  }

  /** An empty choice is no choice, stored or asked for. */
  lemma EmptyIsNoChoice(c: Config, l: Location, wanted: seq<string>)
    ensures Route(c, l, Some(""), wanted) == Route(c, l, None, wanted)
    ensures LangParameter(l.query) == Some("") ==> Override(c, l).None?
  {
    hide CurrentCode, UrlFor, Detected, LangParameter;
  }

  /** Of several overrides the first counts. */
  lemma {:induction false} FirstOverrideCounts(a: seq<Parameter>, value: string, b: seq<Parameter>)
    requires forall p :: p in a ==> p.key != "lang"
    ensures LangParameter(a + [Parameter("lang", value)] + b) == Some(value)
  {
    var all := a + [Parameter("lang", value)] + b;
    if a != [] {
      assert all[1..] == a[1..] + [Parameter("lang", value)] + b;
      FirstOverrideCounts(a[1..], value, b);
    }
  }

  /** A load redirects exactly if the preferred language is not the one being read, and then to that language. */
  lemma RedirectsExactly(c: Config, l: Location, stored: Option<string>, wanted: seq<string>)
    ensures var code := Preferred(c, l, stored, wanted);
      Route(c, l, stored, wanted).redirect == if code != CurrentCode(c, l) then Some(UrlFor(c, l, code)) else None
  {
    DetectedIsPublished(c, wanted);
    hide CurrentCode, UrlFor, Detected, Override;
  }
}
