/**
 * `ServeHTTP` (brisk.go:186-245): the request parameters are the first value of each
 * query key with the chosen route's named captures laid over them; the first route
 * the registry iteration reaches that matches the path decides the response.
 */
module Dispatch {
  import opened Wrappers
  import opened MapOrder
  import opened Brisk
  import opened Routing
  import opened Inheritance
  import opened Widgets
  import opened Compose

  /** A request: its URL path and its query string as decoded key/value pairs, in order. */
  datatype Request = Request(path: string, query: seq<(string, string)>)

  /** What `ServeHTTP` does with a request. */
  datatype Outcome =
    | NotFound
      /** `http.NotFound` */
    | Delegated(handler: Handler)
      /** the route's raw handler answers */
    | NoOutput
      /** nothing is written (the wireframe is missing) */
    | Written(body: string)
      /** the wireframe's output is written */
    | Diverges
      /** the inheritance walk of `buildPage` never ends */

  // ----- Query parameters -----

  /** `url.ParseQuery`: each key's values, in the order they appear in the query. */
  function ParseQuery(pairs: seq<(string, string)>): (r: map<string, seq<string>>)
    ensures forall k :: k in r <==> exists i :: 0 <= i < |pairs| && pairs[i].0 == k
    ensures forall k :: k in r ==> |r[k]| > 0
    decreases |pairs|
  {
    if |pairs| == 0 then map[]
    else
      var init := ParseQuery(pairs[..|pairs| - 1]);
      var (k, v) := pairs[|pairs| - 1];
      assert forall i :: 0 <= i < |pairs| - 1 ==> pairs[..|pairs| - 1][i] == pairs[i];
      init[k := (if k in init then init[k] else []) + [v]]
  }

  /** Lines 198-201: every key keeps its first value. */
  function FirstValues(m: map<string, seq<string>>): (r: map<string, string>)
    requires forall k :: k in m ==> |m[k]| > 0
    ensures r.Keys == m.Keys
    ensures forall k :: k in m ==> r[k] == m[k][0]
  {
    map k | k in m :: m[k][0]
  }

  /** The query parameters of a request. */
  function QueryParams(pairs: seq<(string, string)>): map<string, string> {
    FirstValues(ParseQuery(pairs))
  }

  lemma {:induction false} ParseQueryFirst(pairs: seq<(string, string)>, k: string, i: nat)
    requires i < |pairs| && pairs[i].0 == k
    requires forall j :: 0 <= j < i ==> pairs[j].0 != k
    ensures k in ParseQuery(pairs) && ParseQuery(pairs)[k][0] == pairs[i].1
    decreases |pairs|
  {
    var n := |pairs|;
    var init := pairs[..n - 1];
    var before := ParseQuery(init);
    var (last, v) := pairs[n - 1];
    assert ParseQuery(pairs) == before[last := (if last in before then before[last] else []) + [v]];
    if i < n - 1 {
      assert init[i] == pairs[i];
      ParseQueryFirst(init, k, i);
      assert ParseQuery(pairs)[k][0] == before[k][0];
    } else {
      assert k !in before by {
        forall j | 0 <= j < n - 1
          ensures init[j].0 != k
        {
          assert init[j] == pairs[j];
        }
      }
    }
  }

  /**
   * A key repeated in the query keeps the value of its first occurrence; the query
   * parameters have exactly the keys the query names.
   */
  lemma QueryKeepsFirstValue(pairs: seq<(string, string)>, k: string, i: nat)
    requires i < |pairs| && pairs[i].0 == k
    requires forall j :: 0 <= j < i ==> pairs[j].0 != k
    ensures k in QueryParams(pairs) && QueryParams(pairs)[k] == pairs[i].1
  {
    ParseQueryFirst(pairs, k, i);
  }

  lemma QueryParamsKeys(pairs: seq<(string, string)>, k: string)
    ensures k in QueryParams(pairs) <==> exists i :: 0 <= i < |pairs| && pairs[i].0 == k
  {
  }

  // ----- Captures -----

  /** The pairs (name, submatch) of the route's groups, group 0 first. */
  function Captures(re: Regexp, path: string): (r: seq<(string, string)>)
    ensures |r| == |SubexpNames(re)|
    ensures forall i :: 0 <= i < |r| ==> r[i] == (SubexpNames(re)[i], Submatch(re, path, i))
  {
    var names := SubexpNames(re);
    seq(|names|, i requires 0 <= i < |names| => (names[i], Submatch(re, path, i)))
  }

  /** Lines 208-210: each capture in turn overwrites the parameter of its name. */
  function Overlay(params: map<string, string>, captures: seq<(string, string)>): (r: map<string, string>)
    decreases |captures|
  {
    if |captures| == 0 then params
    else
      var (name, value) := captures[|captures| - 1];
      Overlay(params, captures[..|captures| - 1])[name := value]
  }

  /** The parameters `buildPage` receives when `re` matched the request's path. */
  function RequestParams(re: Regexp, req: Request): map<string, string> {
    var params := QueryParams(req.query);
    if |SubexpNames(re)| > 0 then Overlay(params, Captures(re, req.path)) else params
  }

  /**
   * The key set of the overlaid parameters is the query's keys plus the capture names;
   * a name captured more than once takes its last capture, and a key no capture
   * names keeps its query value.
   */
  lemma {:induction false} OverlayLastWins(params: map<string, string>, captures: seq<(string, string)>, k: string)
    ensures k in Overlay(params, captures) <==> k in params || exists i :: 0 <= i < |captures| && captures[i].0 == k
    ensures (forall i :: 0 <= i < |captures| ==> captures[i].0 != k) && k in params
            ==> Overlay(params, captures)[k] == params[k]
    ensures forall i :: 0 <= i < |captures| && captures[i].0 == k
                        && (forall j :: i < j < |captures| ==> captures[j].0 != k)
                        ==> Overlay(params, captures)[k] == captures[i].1
    decreases |captures|
  {
    if |captures| > 0 {
      var n := |captures|;
      var init := captures[..n - 1];
      OverlayLastWins(params, init, k);
      assert forall i :: 0 <= i < n - 1 ==> init[i] == captures[i];
    }
  }

  /**
   * Every capture name overwrites the query parameter of the same name, even the empty
   * name of group 0 and of every unnamed group.
   */
  lemma CapturesOverrideQuery(re: Regexp, req: Request, i: nat)
    requires i < |SubexpNames(re)|
    requires forall j :: i < j < |SubexpNames(re)| ==> SubexpNames(re)[j] != SubexpNames(re)[i]
    ensures SubexpNames(re)[i] in RequestParams(re, req)
    ensures RequestParams(re, req)[SubexpNames(re)[i]] == Submatch(re, req.path, i)
  {
    var caps := Captures(re, req.path);
    OverlayLastWins(QueryParams(req.query), caps, SubexpNames(re)[i]);
  }

  /** A key that is no capture name keeps the query's first value. */
  lemma QueryValueSurvives(re: Regexp, req: Request, k: string, i: nat)
    requires i < |req.query| && req.query[i].0 == k
    requires forall j :: 0 <= j < i ==> req.query[j].0 != k
    requires forall j :: 0 <= j < |SubexpNames(re)| ==> SubexpNames(re)[j] != k
    ensures k in RequestParams(re, req) && RequestParams(re, req)[k] == req.query[i].1
  {
    QueryKeepsFirstValue(req.query, k, i);
    OverlayLastWins(QueryParams(req.query), Captures(re, req.path), k);
  }

  /** A static route stores the whole path under the empty name. */
  lemma StaticRouteCapturesPath(exactPath: string, action: string, req: Request)
    requires !HasQuoteEnd(exactPath) && req.path == exactPath
    ensures "" in RequestParams(NewStaticRouteToAction(exactPath, action).regexp, req)
    ensures RequestParams(NewStaticRouteToAction(exactPath, action).regexp, req)[""] == exactPath
  {
    CapturesOverrideQuery(NewStaticRouteToAction(exactPath, action).regexp, req, 0);
  }

  // ----- The response -----

  /** `paramOrder` is a visiting order of the parameters the chosen route's page is built with. */
  predicate ParamOrderFits(site: Site, routeOrder: seq<string>, req: Request, paramOrder: seq<string>)
    requires IsEnumeration(routeOrder, site.routes.Keys)
  {
    match ChooseRoute(site.routes, routeOrder, req.path)
    case None => true
    case Some(name) => IsEnumeration(paramOrder, RequestParams(site.routes[name].regexp, req).Keys)
  }

  /** Lines 219-240: the response for a request that reached an action route. */
  function ServeAction(site: Site, action: string, params: map<string, string>, paramOrder: seq<string>): (r: Outcome)
    requires IsEnumeration(paramOrder, params.Keys)
    ensures r == NotFound <==> action !in site.pages
    ensures r.Diverges? <==> action in site.pages && Chain(site.pages, site.pages[action]).None?
    ensures r.Delegated? == false
  {
    if action !in site.pages then NotFound
    else
      match BuildPage(site, site.pages[action], params, paramOrder)
      case None => Diverges
      case Some(built) =>
        if built.wireframe !in site.wireframes then NoOutput
        else Written(site.wireframes[built.wireframe](built))
  }

  /**
   * `ServeHTTP` for a request, with the route registry visited in `routeOrder` and the
   * parameters in `paramOrder`. It answers NotFound exactly when no route matches or
   * the chosen action names no page: the "buildPage failed" answer never happens.
   */
  function ServeHttp(site: Site, routeOrder: seq<string>, req: Request, paramOrder: seq<string>): (r: Outcome)
    requires IsEnumeration(routeOrder, site.routes.Keys)
    requires ParamOrderFits(site, routeOrder, req, paramOrder)
    ensures r == NotFound <==>
      || ChooseRoute(site.routes, routeOrder, req.path).None?
      || (var route := site.routes[ChooseRoute(site.routes, routeOrder, req.path).value];
          route.handler.None? && route.action !in site.pages)
    ensures r.Delegated? ==> exists name :: name in site.routes && RouteMatches(site.routes, name, req.path)
                                          && site.routes[name].handler == Some(r.handler)
  {
    match ChooseRoute(site.routes, routeOrder, req.path)
    case None => NotFound
    case Some(name) =>
      var route := site.routes[name];
      if route.handler.Some? then Delegated(route.handler.value)
      else ServeAction(site, route.action, RequestParams(route.regexp, req), paramOrder)
  }

  // ----- Outcomes -----

  /** When no route matches, the answer is NotFound whatever order the registry is visited in. */
  lemma NoMatchNotFound(site: Site, routeOrder: seq<string>, req: Request, paramOrder: seq<string>)
    requires IsEnumeration(routeOrder, site.routes.Keys)
    requires forall name :: name in site.routes ==> !RouteMatches(site.routes, name, req.path)
    ensures ParamOrderFits(site, routeOrder, req, paramOrder)
    ensures ServeHttp(site, routeOrder, req, paramOrder) == NotFound
  {
  }

  /**
   * A route with a raw handler hands the request over and builds no page: the pages,
   * widgets and wireframes of the site play no part in the answer.
   */
  lemma HandlerRouteBuildsNoPage(site: Site, routeOrder: seq<string>, req: Request, paramOrder: seq<string>,
                                 other: Site)
    requires IsEnumeration(routeOrder, site.routes.Keys)
    requires ParamOrderFits(site, routeOrder, req, paramOrder)
    requires ChooseRoute(site.routes, routeOrder, req.path).Some?
    requires site.routes[ChooseRoute(site.routes, routeOrder, req.path).value].handler.Some?
    requires other.routes == site.routes
    ensures ServeHttp(site, routeOrder, req, paramOrder)
         == Delegated(site.routes[ChooseRoute(site.routes, routeOrder, req.path).value].handler.value)
    ensures ParamOrderFits(other, routeOrder, req, paramOrder)
    ensures ServeHttp(other, routeOrder, req, paramOrder) == ServeHttp(site, routeOrder, req, paramOrder)
  {
  }

  /** An action route whose action names no page answers NotFound. */
  lemma MissingPageNotFound(site: Site, routeOrder: seq<string>, req: Request, paramOrder: seq<string>, name: string)
    requires IsEnumeration(routeOrder, site.routes.Keys)
    requires ParamOrderFits(site, routeOrder, req, paramOrder)
    requires ChooseRoute(site.routes, routeOrder, req.path) == Some(name)
    requires site.routes[name].handler.None? && site.routes[name].action !in site.pages
    ensures ServeHttp(site, routeOrder, req, paramOrder) == NotFound
  {
  }

  /**
   * An action route whose page inherits in a cycle never answers: the inheritance
   * walk of `buildPage` runs forever.
   */
  lemma CyclicPageDiverges(site: Site, routeOrder: seq<string>, req: Request, paramOrder: seq<string>, name: string)
    requires IsEnumeration(routeOrder, site.routes.Keys)
    requires ParamOrderFits(site, routeOrder, req, paramOrder)
    requires ChooseRoute(site.routes, routeOrder, req.path) == Some(name)
    requires site.routes[name].handler.None? && site.routes[name].action in site.pages
    requires Chain(site.pages, site.pages[site.routes[name].action]).None?
    ensures ServeHttp(site, routeOrder, req, paramOrder) == Diverges
    ensures forall k: nat :: LoopRuns(site.pages, site.pages[site.routes[name].action].base, k)
  {
    ChainNoneMeansLoopNeverEnds(site.pages, site.pages[site.routes[name].action]);
  }

  /**
   * An action route whose page is built answers with the composed page's wireframe
   * applied to it, or writes nothing when no wireframe has that name.
   */
  lemma ActionRouteWritesWireframe(site: Site, routeOrder: seq<string>, req: Request, paramOrder: seq<string>,
                                   name: string, chain: seq<HtmlPage>)
    requires IsEnumeration(routeOrder, site.routes.Keys)
    requires ParamOrderFits(site, routeOrder, req, paramOrder)
    requires ChooseRoute(site.routes, routeOrder, req.path) == Some(name)
    requires site.routes[name].handler.None? && site.routes[name].action in site.pages
    requires Chain(site.pages, site.pages[site.routes[name].action]) == Some(chain)
    ensures var params := RequestParams(site.routes[name].regexp, req);
      var built := ComposeChain(Renderer(site.widgets, params, paramOrder), chain);
      && (built.wireframe !in site.wireframes ==> ServeHttp(site, routeOrder, req, paramOrder) == NoOutput)
      && (built.wireframe in site.wireframes ==>
            ServeHttp(site, routeOrder, req, paramOrder) == Written(site.wireframes[built.wireframe](built)))
  {
    var params := RequestParams(site.routes[name].regexp, req);
    BuildPageComposes(site, site.pages[site.routes[name].action], params, paramOrder, chain);
  }

  /** When exactly one route matches, the order in which the registry is visited does not change the answer. */
  lemma SingleMatchOrderIrrelevant(site: Site, routeOrder1: seq<string>, routeOrder2: seq<string>, req: Request,
                                   paramOrder: seq<string>, name: string)
    requires IsEnumeration(routeOrder1, site.routes.Keys) && IsEnumeration(routeOrder2, site.routes.Keys)
    requires name in site.routes && RouteMatches(site.routes, name, req.path)
    requires forall other :: other in site.routes && RouteMatches(site.routes, other, req.path) ==> other == name
    requires ParamOrderFits(site, routeOrder1, req, paramOrder)
    ensures ParamOrderFits(site, routeOrder2, req, paramOrder)
    ensures ServeHttp(site, routeOrder1, req, paramOrder) == ServeHttp(site, routeOrder2, req, paramOrder)
  {
    ChooseRouteUnique(site.routes, routeOrder1, routeOrder2, req.path, name);
  }

  /** The page "homePage": wireframe "default", the widget "banner" in the top slot. */
  const HomePage := HtmlPage("", "default", "", "", ["banner"], [], [], [], [])

  /** A site with that page statically routed at "/" and a widget "banner" rendering "Welcome". */
  function HomeSite(wireframe: HtmlPage -> string): Site {
    Site(map["default" := wireframe],
         map["banner" := WidgetFactory(None, None, Some(_ => "Welcome"))],
         map["homePage" := HomePage],
         map["home" := NewStaticRouteToAction("/", "homePage")])
  }

  lemma HomeRoute(wireframe: HtmlPage -> string)
    ensures ChooseRoute(HomeSite(wireframe).routes, ["home"], "/") == Some("home")
    ensures RequestParams(HomeSite(wireframe).routes["home"].regexp, Request("/", [])).Keys == {""}
  {
    var req := Request("/", []);
    assert !HasQuoteEnd("/");
    StaticRouteCapturesPath("/", "homePage", req);
  }

  lemma HomeComposes(render: string -> string)
    requires render("banner") == "Welcome"
    ensures ComposeChain(render, [HomePage]) == HtmlPage("", "default", "", "", ["Welcome"], [], [], [], [])
  {
    assert [HomePage][..0] == [];
    assert RenderAll(render, ["banner"]) == ["Welcome"];
  }

  /**
   * A request for "/" to the home site is answered with the wireframe applied to a
   * page whose top slot is ["Welcome"].
   */
  lemma HomePageWelcome(wireframe: HtmlPage -> string)
    ensures ParamOrderFits(HomeSite(wireframe), ["home"], Request("/", []), [""])
    ensures ServeHttp(HomeSite(wireframe), ["home"], Request("/", []), [""])
         == Written(wireframe(HtmlPage("", "default", "", "", ["Welcome"], [], [], [], [])))
  {
    var site := HomeSite(wireframe);
    var req := Request("/", []);
    HomeRoute(wireframe);
    var params := RequestParams(site.routes["home"].regexp, req);
    ChainIffShape(site.pages, HomePage, [HomePage]);
    var render := Renderer(site.widgets, params, [""]);
    assert render("banner") == "Welcome";
    HomeComposes(render);
    ActionRouteWritesWireframe(site, ["home"], req, [""], "home", [HomePage]);
  }
}
