/**
 * The data of a go-brisk site (brisk.go:18-55): the four registries built at start-up
 * and the records they hold. Widget, prepare, render and wireframe functions are
 * opaque Dafny functions; regular expressions are described in `Routing`.
 */
module Brisk {
  import opened Wrappers
  import opened Binding

  /**
   * A page: as a descriptor read from an action's JSON file its slots hold widget
   * names; as the composed page handed to a wireframe they hold rendered widget text.
   */
  datatype HtmlPage = HtmlPage(
    title: string,
    wireframe: string,
    base: string,
    bodyId: string,
    top: seq<string>,
    left: seq<string>,
    center: seq<string>,
    right: seq<string>,
    bottom: seq<string>)

  /** The five ordered slots of a page. */
  datatype Slot = Top | Left | Center | Right | Bottom

  /** The three scalar attributes a page may override. */
  datatype Scalar = TitleAttr | BodyIdAttr | WireframeAttr

  function SlotOf(p: HtmlPage, s: Slot): seq<string> {
    match s
    case Top => p.top
    case Left => p.left
    case Center => p.center
    case Right => p.right
    case Bottom => p.bottom
  }

  function ScalarOf(p: HtmlPage, a: Scalar): string {
    match a
    case TitleAttr => p.title
    case BodyIdAttr => p.bodyId
    case WireframeAttr => p.wireframe
  }

  /** `&HtmlPage{}`: every string empty and every slot nil. */
  const EmptyPage := HtmlPage("", "", "", "", [], [], [], [], [])

  /**
   * A registered widget. `newParamsObject`, when `NewParamsObject` is set, holds the
   * fields of the fresh struct whose pointer each call returns; `prepare` and `render`
   * are the optional functions.
   */
  datatype WidgetFactory = WidgetFactory(
    newParamsObject: Option<Fields>,
    prepare: Option<ParamsObject -> ParamsObject>,
    render: Option<ParamsObject -> string>)

  /** The raw handler of a route that bypasses page composition. */
  datatype Handler =
    | ServeFile(localFilePath: string)
      /** `http.ServeFile` of one local file */
    | ServeMediaFolder(mediaFolder: string, localMediaFolder: string)
      /** `http.FileServer` of a local folder with the URL prefix stripped */
    | CustomHandler(name: string)
      /** any other handler a program installs on a route */

  /**
   * A compiled route pattern. `Quoted(lit, anchoredAtEnd)` is the pattern
   * `^\Q` + lit + `\E`, followed by `$` when `anchoredAtEnd`; `Compiled` is any other
   * pattern, whose matching, group names and submatches the regexp engine supplies.
   */
  datatype Regexp =
    | Quoted(literal: string, anchoredAtEnd: bool)
    | Compiled(matchString: string -> bool, subexpNames: seq<string>, submatch: (string, nat) -> string)

  /** A route: a pattern and either an action (a page name) or a raw handler. */
  datatype Route = Route(regexp: Regexp, action: string, handler: Option<Handler>)

  /** The registries of a site; a missing key plays the part of Go's nil. */
  datatype Site = Site(
    wireframes: map<string, HtmlPage -> string>,
    widgets: map<string, WidgetFactory>,
    pages: map<string, HtmlPage>,
    routes: map<string, Route>)
}
