# go-brisk request handling, modelled in Dafny

go-brisk serves web pages composed from a site's registries:

- **Pages** are named descriptors. Each has three scalar attributes (`Title`, `BodyId`, `Wireframe`) and five slots of widget names (`Top`, `Left`, `Center`, `Right`, `Bottom`). A page may inherit from another page through `Base`.
- **Widgets** render one piece of content from the request parameters.
- **Wireframes** turn a composed page into the response text.
- **Routes** map URL paths, by regular expression, to an action (a page name) or to a raw handler.

This project models the request-handling core of `brisk.go` and proves what it promises:

- `renderWidget`;
- `buildPage`, which walks the inheritance chain and folds it root to leaf;
- `AssignValues`, which binds request parameters to a widget's parameter object;
- the route constructors `NewStaticRouteToAction`, `NewStaticRouteToFile` and `NewRouteToMediaFolder`;
- `ServeHTTP`, which merges the parameters, chooses a route and decides the response.

Modules, one per file:

| file | module | models |
|---|---|---|
| `wrappers.dfy` | `Wrappers` | `Option` |
| `maporder.dfy` | `MapOrder` | a visiting order of a Go map (every key exactly once) |
| `strconv.dfy` | `Strconv` | `strconv.Atoi` on 64-bit `int` |
| `strings.dfy` | `Strings` | `strings.Title` on ASCII text |
| `binding.dfy` | `Binding` | `AssignValues` over a field-kind map in place of reflection |
| `brisk.dfy` | `Brisk` | `Site`, `HtmlPage`, `WidgetFactory`, `Route` |
| `widgets.dfy` | `Widgets` | `renderWidget` |
| `inheritance.dfy` | `Inheritance` | the `Base` walk of `buildPage` |
| `compose.dfy` | `Compose` | the composition fold of `buildPage` |
| `routing.dfy` | `Routing` | route patterns, the route constructors, first-match route choice |
| `fmt.dfy` | `Fmt` | `fmt.Fprintf` with a format string and no arguments |
| `dispatch.dfy` | `Dispatch` | `ServeHTTP` |

## Modelling choices

- **Go map order.** Go visits a map in an order the runtime picks afresh each time. `ServeHTTP` takes the first matching route it meets in `Routes`, and `AssignValues` binds the request parameters in map order. The model makes each order an explicit parameter (`routeOrder`, `order`/`paramOrder`). `IsEnumeration` requires that each key appears exactly once. A contract that holds for every enumeration holds for every order the runtime may choose.
  - `AnyMatchingRouteMayServe` shows that every matching route can be the one chosen.
  - `SingleMatchOrderIrrelevant` and `AssignValuesOrderIrrelevant` state when the order does not matter.
- **Cyclic `Base` chains.** The Go loop `for chainLink := Pages[page.Base]; chainLink != nil; ...` never ends on a cyclic chain.
  - The model walks with a set of visited names, so it terminates on the measure `pages.Keys - visited`.
  - It answers `None` on a revisit.
  - `ChainNoneMeansLoopNeverEnds` proves that when the walk answers `None`, the Go loop runs forever.
  - `ChainMatchesLoop` proves the converse: when the walk finds a chain, the Go loop stops after `|chain| - 1` iterations.
  - Together they show that `None` is answered exactly when the Go loop runs forever.
  - `ServeHttp` reports that case as `Diverges`.
- **Reflection.** `NewParamsObject` is modelled as the struct its result points to: `Fields` maps each field name to a `StringField`, an `IntField` or an `OtherField`. `AssignValues` works on that struct. `Prepare` and `Render` receive a `ParamsObject`, which is `NilObject` when the widget has no `NewParamsObject` and `StructPtr(fields)` otherwise. Only exported fields can be set, as with `reflect`'s `CanSet`; the model takes exported to mean an ASCII upper-case first letter.
- **Regular expressions.** The engine is foreign code. A pattern is one of two kinds:
  - `Quoted(literal, anchoredAtEnd)`: the only shape the route constructors build (`^\Q…\E$` or `^\Q…\E`), with its exact semantics;
  - `Compiled(matchString, subexpNames, submatch)`: any other pattern, with the engine's answers as functions.
- **Requests.** A request is its path plus its query string as decoded `(key, value)` pairs, in order. `ParseQuery` groups the values per key in that order.
- **Collaborators.** Widget `Prepare`/`Render` functions and wireframes are opaque Dafny functions. The rendering function is passed to the composition fold as `render: string -> string`. `Compose.Renderer` fixes it to `renderWidget` for one request.

## Where code and description differ

- **`strings.Title`.** The code upper-cases the first letter of *every* word of a parameter key, not only the first letter of the key. For example, `page_size` binds field `Page_size` (`_` does not separate words). `page-size` becomes `Page-Size`, which no Go field can be named, so that key binds nothing. The model follows the code.
- **`buildPage` never fails.** It always returns a non-nil page when it returns at all. The "buildPage failed" NotFound branch of `ServeHTTP` is unreachable: `ServeHttp`'s contract lists exactly two causes of NotFound. A cyclic inheritance chain hangs the request instead of failing it.
- **Missing wireframe.** When the composed page names no registered wireframe, nothing is written (`NoOutput`): no error status, no body.
- **Group 0 capture.** Go's `SubexpNames` always lists group 0 (the whole match) under the empty name, so every route match stores the whole match under the parameter name `""`. Static routes store the path there. The model keeps the code's `len(prettyParams) > 0` test for `Compiled` patterns.

## Model

| member | source | states |
|---|---|---|
| Widgets.RenderWidget | brisk.go:63-81 | an unregistered name renders as "Missing Widget: " followed by the name; a registered widget without `Render` renders as "" |
| Widgets.MissingWidgetPlaceholder | brisk.go:64-67 | the placeholder is never empty, ends with the widget's name, and two missing widgets get the same placeholder only when their names are equal |
| Widgets.NoBindingWithoutParamsObject | brisk.go:68-72 | without `NewParamsObject` no parameters are bound: the widget renders the same for any request parameters |
| Widgets.RenderInputOfWidget | brisk.go:68-80 | `Render` receives the bound object (nil without `NewParamsObject`), passed through `Prepare` exactly when `Prepare` is set |
| Inheritance.ChainIffShape | brisk.go:84-88 | the walk returns `chain` exactly when `chain` ends with the page, each earlier link is the page named by the next link's `Base`, and the first link's `Base` names no page |
| Inheritance.ChainShape | brisk.go:84-88 | a chain the walk returns has that shape |
| Inheritance.ChainShapeUnique | brisk.go:84-88 | at most one chain has that shape for a given page |
| Inheritance.ChainMatchesLoop | brisk.go:86-88 | when the walk returns a chain, the Go loop runs exactly `|chain| - 1` times: the chain holds the page plus one link per loop iteration |
| Inheritance.ChainNoneMeansLoopNeverEnds | brisk.go:86-88 | when the walk answers `None`, the Go loop body runs for every iteration count: it never terminates |
| Inheritance.AncestorsMatchLoop | brisk.go:86-88 | the ancestors found are, root first, the pages the loop looks up, and the loop stops right after them |
| Compose.ComposeChain | brisk.go:90-116 | the composed page inherits no `Base`, and each slot has as many entries as the chain's links list in it |
| Compose.BuildPage | brisk.go:83-119 | a page is returned exactly when the inheritance walk ends, so a returned page is never nil, and it has an empty `Base` |
| Compose.ComposeScalarLastNonEmpty | brisk.go:92-100 | each of `Title`, `BodyId`, `Wireframe` is the value of the last link where it is non-empty, or "" when it is empty in every link |
| Compose.ComposeChainScalar | brisk.go:92-100 | each scalar of the composed page is the scalar fold of the chain on its own: slots and widgets do not affect it |
| Compose.ComposedScalarLastNonEmpty | brisk.go:92-100 | the same last-non-empty property, for the scalar fold on its own |
| Compose.ComposeSlotConcatenates | brisk.go:101-115 | each composed slot is the root-to-leaf concatenation of the links' slots with every name rendered |
| Compose.ComposeSlotAt | brisk.go:101-115 | the `k`-th name in slot `s` of link `i` is rendered at position `Offset(chain, i, s) + k` of the composed slot |
| Compose.ConcatSlotAt | brisk.go:101-115 | in the concatenation of the links' rendered slots, the `k`-th name of link `i` is rendered at position `Offset(chain, i, s) + k` |
| Compose.SlotTotalGrows | brisk.go:101-115 | the entries of an earlier (ancestor) link come before those of any later link |
| Compose.RenderedSlotsLength | brisk.go:101-115 | the concatenated slot is as long as the number of names the links list in it |
| Compose.RenderAll | brisk.go:101-103 | one link's slot renders to one entry per name, in order |
| Compose.MissingWidgetKeepsComposing | brisk.go:101-115 | a missing widget leaves the page built, its placeholder at the widget's position |
| Compose.AncestorWidgetsFirst | brisk.go:84-115 | page B with base A, A.top = [w1], B.top = [w2], composes top as [render(w1), render(w2)] |
| Binding.AssignValues | brisk.go:125-140 | binding keeps the struct's field names and every field's kind |
| Binding.AssignValuesSingleKey | brisk.go:126-138 | when one key capitalises to an exported field: a string field takes the value; an int field takes the parsed integer when the parse succeeds and stays otherwise; other kinds stay |
| Binding.AssignValuesUntouched | brisk.go:126-138 | a field no key capitalises to keeps its value |
| Binding.AssignValuesOrderIrrelevant | brisk.go:126 | when no two keys capitalise to the same name, every map order binds the same object |
| Binding.AssignKeysFieldwise | brisk.go:126-138 | each field ends as its initial value updated, in visiting order, by the values of the keys that capitalise to it |
| Binding.SetFromString | brisk.go:130-138 | a field keeps its kind; a string field becomes the value; an int field becomes the parsed integer when `Atoi` succeeds and is unchanged when it fails; other kinds are unchanged |
| Binding.AssignField | brisk.go:128-137 | an exported field that exists becomes the value `SetFromString` gives for it; the other fields and the field names are unchanged; a missing or unexported target leaves the struct alone |
| Binding.BindPageAndQuery | brisk.go:125-140 | parameters page=3 and query=cats bind int `Page` to 3 and string `Query` to "cats" |
| Binding.BindUnparsablePage | brisk.go:133-137 | parameter page=abc leaves `Page` at its zero value |
| Strings.Title | brisk.go:127 | only lower-case letters change, each to its upper-case form; no word starts with a lower-case letter afterwards; letters inside a word are unchanged |
| Strings.TitleIdempotent | brisk.go:127 | capitalising twice is capitalising once |
| Strings.TitleEveryWord | brisk.go:127 | "page-size" becomes "Page-Size" |
| Strings.TitleUnderscoreJoins | brisk.go:127 | "page_size" becomes "Page_size" |
| Strings.TitlePage | brisk.go:127 | "page" becomes "Page" |
| Strings.TitleQuery | brisk.go:127 | "query" becomes "Query" |
| Strconv.Atoi | brisk.go:134-137 | a parsed value lies in the 64-bit range, comes from a non-empty run of digits after at most one sign, and is negative only after a minus sign |
| Strconv.AtoiFormatIntRoundTrip | brisk.go:134 | every 64-bit integer's decimal form parses back to it |
| Strconv.AtoiIgnoresPlusAndLeadingZeros | brisk.go:134 | any run of leading zeros, with no sign, after `+` or after `-`, changes nothing; a `+` sign parses like no sign; in range, the digits parse to their value and `-` negates it, so `-0…0` is 0 |
| Strconv.AtoiRejectsOverflow | brisk.go:134-137 | one past either end of the 64-bit range is a parse error, so an int field keeps its value |
| Routing.NewStaticRouteToAction | brisk.go:157-160 | the route matches exactly its path, routes to the action with no handler, and has only group 0 |
| Routing.NewStaticRouteToFile | brisk.go:162-169 | the route matches exactly its path and serves the local file |
| Routing.NewRouteToMediaFolder | brisk.go:171-179 | the route matches exactly the paths that start with the folder's URL prefix and serves the media folder |
| Routing.StripPrefix | brisk.go:174 | on the decoded path: the prefix is removed exactly when the path starts with it, and prefix plus remainder is the path |
| Routing.MediaFolderStripsPrefix | brisk.go:171-179 | every decoded path the media route matches has its prefix stripped successfully |
| Routing.StaticAndMediaShapes | brisk.go:157-179 | a longer path below a prefix matches the media route for that prefix and not the static route |
| Routing.SubexpNames | brisk.go:205 | a quoted pattern has exactly one group, group 0, named "" |
| Routing.QuotedSubmatchIsMatch | brisk.go:205-209 | group 0 of a quoted pattern is the matched start of the path, the whole path for a static route |
| Routing.FirstMatch | brisk.go:203-204 | the answer is the position of the first matching route in the visiting order, or none when no route matches |
| Routing.ChooseRoute | brisk.go:203-204 | the chosen route is registered and matches; no route before it in the order matches; none is chosen exactly when no route matches |
| Routing.ChooseRouteUnique | brisk.go:203-204 | when one route alone matches, every order chooses it |
| Routing.AnyMatchingRouteMayServe | brisk.go:203-204 | for every matching route there is a map order whose iteration chooses it |
| Dispatch.ParseQuery | brisk.go:197 | a key has values exactly when the query names it, and every key has at least one value |
| Dispatch.FirstValues | brisk.go:198-201 | the merged parameters have exactly the parsed query's keys, each holding the first of its values |
| Dispatch.ParseQueryFirst | brisk.go:197 | a key's first parsed value is the value of its first occurrence in the query |
| Dispatch.QueryKeepsFirstValue | brisk.go:196-201 | a repeated query key keeps the value of its first occurrence |
| Dispatch.QueryParamsKeys | brisk.go:196-201 | the query parameters have exactly the keys named in the query |
| Dispatch.Captures | brisk.go:205-209 | one (name, submatch) pair per group, in group order |
| Dispatch.OverlayLastWins | brisk.go:208-210 | after the overlay, a captured name holds its last capture, an uncaptured key keeps its query value, and the keys are the query's plus the capture names |
| Dispatch.CapturesOverrideQuery | brisk.go:205-211 | every capture name, including "" for group 0, overwrites the query parameter of that name |
| Dispatch.QueryValueSurvives | brisk.go:196-211 | a query key that no group names reaches the page with its first query value |
| Dispatch.StaticRouteCapturesPath | brisk.go:205-210 | a static route stores the request path under the name "" |
| Dispatch.ServeAction | brisk.go:219-240 | an action route answers NotFound exactly when the action names no page, and never answers the "buildPage failed" NotFound |
| Dispatch.ServeHttp | brisk.go:186-245 | NotFound exactly when no route matches or the chosen action route names no page; a delegation goes to the handler of a matching route |
| Dispatch.NoMatchNotFound | brisk.go:244 | no matching route gives NotFound for every route order |
| Dispatch.HandlerRouteBuildsNoPage | brisk.go:213-216 | a route with a handler delegates to it, and pages, widgets and wireframes play no part in the answer |
| Dispatch.MissingPageNotFound | brisk.go:219-224 | an action route whose action names no page answers NotFound |
| Dispatch.CyclicPageDiverges | brisk.go:226-231 | an action route whose page inherits in a cycle never answers: the `buildPage` loop runs forever |
| Dispatch.ActionRouteWritesWireframe | brisk.go:226-240 | an action route writes the wireframe's output for the built page, or nothing when the built page names no registered wireframe |
| Dispatch.SingleMatchOrderIrrelevant | brisk.go:203-243 | when one route alone matches the path, every route order gives the same answer |
| Dispatch.HomePageWelcome | brisk.go:186-245 | "homePage" (wireframe "default", top ["banner"]), routed statically at "/", with widget "banner" rendering "Welcome", answers "/" with the wireframe applied to a page whose top slot is ["Welcome"] |
| Fmt.PrintfNoArgs | brisk.go:239 | text without `%` is written as it is; text whose every `%` is followed by a verb or ends the text is always formatted |
| Fmt.TrailingPercentMangled | brisk.go:239 | an output "5%" is written as "5%!(NOVERB)" |
| Fmt.PercentLetterMangled | brisk.go:239 | an output "%d" is written as "%!d(MISSING)" |

## Findings

| source | as written | input that shows it | evidently intended | confidence | as-written member | corrected member |
|---|---|---|---|---|---|---|
| brisk.go:239 | `fmt.Fprintf(w, wireframe(builtPage))` reads the page text as a format string | a wireframe output "5%" is sent as "5%!(NOVERB)" | write the output verbatim (`fmt.Fprint` or `io.WriteString`) | high; not executed | Fmt.TrailingPercentMangled | Dispatch.ActionRouteWritesWireframe |

`Dispatch.ServeHttp` models the intended behaviour: `Written(body)` carries the wireframe's output exactly. `Fmt.PrintfNoArgs` shows what the code as written sends for that body.

## Left out

- Loading a site from disk: `LoadFromBaseFolder`, `readDirTree`, `makeWidgetList`, `makeWireframeList`, `makeActionList`, `getFileContentsAsString`. These are filesystem I/O, JSON decoding and template compilation; the model starts from the registries they build.
- `RunHttpServer`, the `fmt.Printf` logging, `http.NotFound`'s response body, `http.ServeFile` and `http.FileServer`. These are network and I/O. A delegated request is reported as `Delegated(handler)`, and only the decoded-path prefix decision of `http.StripPrefix` is modelled.
- `writeTo` (brisk.go:121-123): nothing calls it.
- `NewRegexpRoute` and `NewRegexpRouteToAction` (brisk.go:142-155): compiling a pattern is the regexp engine's work. A compiled pattern enters the model as `Compiled(...)`. A pattern that does not compile makes `NewRegexpRouteToAction` dereference nil; that case is not modelled.
- The regexp engine itself: only `\Q…\E` patterns have exact semantics.
- URL decoding of the query string (percent-escapes, `+`, separators): a request carries its decoded pairs.
- Routing.NewStaticRouteToAction: requires that the path contains no `\E`, because `\E` inside the path would end the quoted literal early and turn the rest of the path into pattern syntax.
- Routing.NewStaticRouteToFile: requires that the path contains no `\E`, for the same reason: the pattern is built the same way.
- Routing.NewRouteToMediaFolder: requires that the folder contains no `\E`, for the same reason: the pattern is `^\Q` + folder + `\E`.
- Routing.StripPrefix: only the decoded path is tested. `http.StripPrefix` also answers 404 when the request's raw path is set and does not start with the prefix (a request for `/%6Dedia/a.png` under a `/media/` folder). The request model has no raw path.
- Routing.MediaFolderStripsPrefix: speaks of the decoded path only, for the same reason; a request whose raw path spells the prefix differently matches the route and is still refused by Go.
- Fmt.PrintfNoArgs: flags, width, precision and argument indexes after `%` are not modelled (answered `None`); `Dispatch.ServeHttp` uses the intended verbatim write instead (see Findings).
- Strings.Title: covers ASCII only. Non-ASCII lower-case letters are not upper-cased, and Unicode white space such as U+00A0, which Go's `isSeparator` counts as a separator, is not treated as one.
- Strconv.Atoi: models the 64-bit `int` of the usual Go platforms; a 32-bit build would have narrower bounds.
- Binding.AssignValues: the same key order is used for every widget of one request, while Go may pick a fresh order per widget; the order matters only when two keys capitalise to the same field name. Field kinds other than `string` and `int` (named types, pointers, other integer widths) are `OtherField` and are never set.
- Binding.AssignField: exported means an ASCII upper-case first letter, while Go also exports, and lets reflection set, a field whose first letter is any Unicode upper-case letter (such as `Éx`); such a field is left alone here.
- Binding.AssignValues: the object is always a non-nil pointer to a struct. A `NewParamsObject` that returns nil or a non-pointer value is not modelled. In the reflection library, nil or a pointer to a non-struct panics at the first key, and every routed request has at least the key `""`. A struct value, not a pointer, panics at the first key that names a string or int field. Any other non-pointer value makes the field lookup fail, so nothing is bound. A `NewParamsObject` that hands out one shared object, so that values bound for one request stay visible to the next, is not modelled either: each call yields a fresh struct.
- A nil `*HtmlPage`, `*Route` or `*WidgetFactory` stored in a registry is not modelled: a missing key stands for nil.
- Concurrency: `net/http` serves requests concurrently, but each request only reads the registries, and the model treats each request alone.
