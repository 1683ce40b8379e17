/**
 * Routes and route choice (brisk.go:142-179, 203-204): what a route's pattern matches,
 * the submatches it reports, the shapes of the static and media-folder routes, and
 * the route `ServeHTTP` settles on when it visits the route registry in some order.
 */
module Routing {
  import opened Wrappers
  import opened MapOrder
  import opened Brisk

  // ----- The regexp operations ServeHTTP uses -----

  /** `re.MatchString(path)`. */
  predicate MatchString(re: Regexp, path: string) {
    match re
    case Quoted(lit, anchoredAtEnd) => if anchoredAtEnd then path == lit else IsPrefix(lit, path)
    case Compiled(matchString, _, _) => matchString(path)
  }

  predicate IsPrefix(p: string, s: string) {
    |p| <= |s| && s[..|p|] == p
  }

  /**
   * `re.SubexpNames()`: one name per group, the whole match (group 0) first, with ""
   * for every unnamed group. A quoted pattern has no group besides group 0.
   */
  function SubexpNames(re: Regexp): (names: seq<string>)
    ensures re.Quoted? ==> names == [""]
  {
    match re
    case Quoted(_, _) => [""]
    case Compiled(_, names, _) => names
  }

  /** `re.FindStringSubmatch(path)[index]` for a path the pattern matches. */
  function Submatch(re: Regexp, path: string, index: nat): string {
    match re
    case Quoted(lit, _) => lit
    case Compiled(_, _, submatch) => submatch(path, index)
  }

  /** Group 0 of a quoted pattern is the text it matched, the start of the path. */
  lemma QuotedSubmatchIsMatch(re: Regexp, path: string)
    requires re.Quoted? && MatchString(re, path)
    ensures IsPrefix(Submatch(re, path, 0), path)
    ensures re.anchoredAtEnd ==> Submatch(re, path, 0) == path
  {
  }

  // ----- Route constructors -----

  /** Whether `s` contains the two characters `\E`, which would end the quoted literal early. */
  predicate HasQuoteEnd(s: string) {
    exists i :: 0 <= i < |s| - 1 && s[i] == '\\' && s[i + 1] == 'E'
  }

  /** `NewStaticRouteToAction`: the pattern `^\Q` + path + `\E$` routed to an action. */
  function NewStaticRouteToAction(exactPath: string, actionName: string): (r: Route)
    requires !HasQuoteEnd(exactPath)
    ensures r.handler.None? && r.action == actionName
    ensures forall path :: MatchString(r.regexp, path) <==> path == exactPath
    ensures SubexpNames(r.regexp) == [""]
  {
    Route(Quoted(exactPath, true), actionName, None)
  }

  /** `NewStaticRouteToFile`: the same exact-path pattern, served by `http.ServeFile`. */
  function NewStaticRouteToFile(exactPath: string, localFilePath: string): (r: Route)
    requires !HasQuoteEnd(exactPath)
    ensures r.handler == Some(ServeFile(localFilePath))
    ensures forall path :: MatchString(r.regexp, path) <==> path == exactPath
  {
    Route(Quoted(exactPath, true), "", Some(ServeFile(localFilePath)))
  }

  /**
   * `NewRouteToMediaFolder`: the pattern `^\Q` + folder + `\E`, with no `$`, so every
   * path that starts with the folder's URL prefix matches.
   */
  function NewRouteToMediaFolder(mediaFolder: string, localMediaFolder: string): (r: Route)
    requires !HasQuoteEnd(mediaFolder)
    ensures r.handler == Some(ServeMediaFolder(mediaFolder, localMediaFolder))
    ensures forall path :: MatchString(r.regexp, path) <==> IsPrefix(mediaFolder, path)
  {
    Route(Quoted(mediaFolder, false), "", Some(ServeMediaFolder(mediaFolder, localMediaFolder)))
  }

  /**
   * The decision of `http.StripPrefix` on the decoded path: the path with the prefix
   * removed, or `None` (a 404) when the path does not start with it.
   */
  function StripPrefix(prefix: string, path: string): (r: Option<string>)
    ensures r.Some? <==> IsPrefix(prefix, path)
    ensures r.Some? ==> prefix + r.value == path
  {
    if IsPrefix(prefix, path) then
      assert prefix + path[|prefix|..] == path[..|prefix|] + path[|prefix|..];
      Some(path[|prefix|..])
    else None
  }

  /**
   * Every decoded path a media-folder route matches has its prefix stripped
   * successfully, so the test on the decoded path never turns such a request into a
   * 404; the file server receives the path below the folder.
   */
  lemma MediaFolderStripsPrefix(mediaFolder: string, localMediaFolder: string, path: string)
    requires !HasQuoteEnd(mediaFolder)
    requires MatchString(NewRouteToMediaFolder(mediaFolder, localMediaFolder).regexp, path)
    ensures StripPrefix(mediaFolder, path).Some?
    ensures mediaFolder + StripPrefix(mediaFolder, path).value == path
  {
  }

  /** A static route and a media route for the same path: the media route also matches every path below it. */
  lemma StaticAndMediaShapes(prefix: string, rest: string)
    requires !HasQuoteEnd(prefix) && rest != ""
    ensures MatchString(NewRouteToMediaFolder(prefix, "").regexp, prefix + rest)
    ensures !MatchString(NewStaticRouteToAction(prefix, "").regexp, prefix + rest)
  {
    assert (prefix + rest)[..|prefix|] == prefix;
  }

  // ----- Choosing a route -----

  /** Route `name` of `routes` matches `path`. */
  predicate RouteMatches(routes: map<string, Route>, name: string, path: string)
    requires name in routes
  {
    MatchString(routes[name].regexp, path)
  }

  /**
   * The position in `order` of the first route that matches `path`: `ServeHTTP` stops
   * at the first matching route its map iteration reaches.
   */
  function FirstMatch(routes: map<string, Route>, order: seq<string>, path: string): (r: Option<nat>)
    requires forall i :: 0 <= i < |order| ==> order[i] in routes
    ensures r.None? <==> forall i :: 0 <= i < |order| ==> !RouteMatches(routes, order[i], path)
    ensures r.Some? ==> r.value < |order| && RouteMatches(routes, order[r.value], path)
    ensures r.Some? ==> forall j :: 0 <= j < r.value ==> !RouteMatches(routes, order[j], path)
    decreases |order|
  {
    if |order| == 0 then None
    else if RouteMatches(routes, order[0], path) then Some(0)
    else
      match FirstMatch(routes, order[1..], path)
      case None => None
      case Some(i) => Some(i + 1)
  }

  /** The name of the route `ServeHTTP` serves `path` with, when the registry is visited in `order`. */
  function ChooseRoute(routes: map<string, Route>, order: seq<string>, path: string): (r: Option<string>)
    requires IsEnumeration(order, routes.Keys)
    ensures r.None? <==> forall name :: name in routes ==> !RouteMatches(routes, name, path)
    ensures r.Some? ==> r.value in routes && RouteMatches(routes, r.value, path)
    ensures r.Some? ==> forall i, j :: 0 <= j < i < |order| && order[i] == r.value ==> !RouteMatches(routes, order[j], path)
  {
    match FirstMatch(routes, order, path)
    case None => None
    case Some(i) => Some(order[i])
  }

  /** When exactly one route matches, the order in which the registry is visited does not matter. */
  lemma {:induction false} ChooseRouteUnique(routes: map<string, Route>, order1: seq<string>, order2: seq<string>,
                                             path: string, name: string)
    requires IsEnumeration(order1, routes.Keys) && IsEnumeration(order2, routes.Keys)
    requires name in routes && RouteMatches(routes, name, path)
    requires forall other :: other in routes && RouteMatches(routes, other, path) ==> other == name
    ensures ChooseRoute(routes, order1, path) == Some(name)
    ensures ChooseRoute(routes, order2, path) == Some(name)
  {
  }

  /** `order` with `x` removed. */
  function Remove(order: seq<string>, x: string): (r: seq<string>)
    ensures forall y :: y in r <==> y in order && y != x
    ensures NoDuplicates(order) ==> NoDuplicates(r)
    decreases |order|
  {
    if |order| == 0 then []
    else if order[0] == x then Remove(order[1..], x)
    else
      var rest := Remove(order[1..], x);
      assert order[0] !in rest ==> NoDuplicates(order) ==> NoDuplicates([order[0]] + rest);
      [order[0]] + rest
  }

  /**
   * Every matching route may be the one served: some iteration order of the registry
   * reaches it first. Which of several matching routes answers is therefore up to the
   * runtime's map order.
   */
  lemma AnyMatchingRouteMayServe(routes: map<string, Route>, order: seq<string>, path: string, name: string)
    returns (order': seq<string>)
    requires IsEnumeration(order, routes.Keys)
    requires name in routes && RouteMatches(routes, name, path)
    ensures IsEnumeration(order', routes.Keys)
    ensures ChooseRoute(routes, order', path) == Some(name)
  {
    var rest := Remove(order, name);
    order' := [name] + rest;
    forall i | 0 < i < |order'|
      ensures order'[i] in routes
    {
      assert order'[i] == rest[i - 1] && rest[i - 1] in rest;
    }
    assert forall k :: k in routes ==> k in order';
  }
}
