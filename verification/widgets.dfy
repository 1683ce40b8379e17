/** `renderWidget` (brisk.go:63-81): rendering one widget of a page. */
module Widgets {
  import opened Wrappers
  import opened MapOrder
  import opened Binding
  import opened Brisk

  const MissingWidgetPrefix := "Missing Widget: "

  /**
   * The object handed to `Render`: the request parameters are bound onto a fresh
   * parameter object only when the widget has `NewParamsObject`, otherwise the object
   * is nil; then `Prepare` transforms it, when the widget has one.
   */
  function WidgetInput(w: WidgetFactory, params: map<string, string>, order: seq<string>): ParamsObject
    requires IsEnumeration(order, params.Keys)
  {
    var bound := match w.newParamsObject
      case Some(fields) => StructPtr(AssignValues(params, order, fields))
      case None => NilObject;
    match w.prepare
    case Some(prepare) => prepare(bound)
    case None => bound
  }

  /**
   * The text a page shows for widget `name`: a placeholder naming the widget when it
   * is not registered, the empty string when it has no `Render`, otherwise what
   * `Render` makes of its input.
   */
  function RenderWidget(widgets: map<string, WidgetFactory>, name: string,
                        params: map<string, string>, order: seq<string>): (r: string)
    requires IsEnumeration(order, params.Keys)
    ensures name !in widgets ==> r == MissingWidgetPrefix + name
    ensures name in widgets && widgets[name].render.None? ==> r == ""
  {
    if name !in widgets then MissingWidgetPrefix + name
    else
      var w := widgets[name];
      match w.render
      case None => ""
      case Some(render) => render(WidgetInput(w, params, order))
  }

  /**
   * The placeholder for a missing widget is never empty, ends with the widget's name,
   * and tells different missing widgets apart.
   */
  lemma MissingWidgetPlaceholder(widgets: map<string, WidgetFactory>, name1: string, name2: string,
                                 params: map<string, string>, order: seq<string>)
    requires IsEnumeration(order, params.Keys)
    requires name1 !in widgets && name2 !in widgets
    ensures var r := RenderWidget(widgets, name1, params, order);
      && r != ""
      && |r| == |MissingWidgetPrefix| + |name1|
      && r[|MissingWidgetPrefix|..] == name1
    ensures RenderWidget(widgets, name1, params, order) == RenderWidget(widgets, name2, params, order) <==> name1 == name2
  {
    var r1 := RenderWidget(widgets, name1, params, order);
    var r2 := RenderWidget(widgets, name2, params, order);
    assert r1[|MissingWidgetPrefix|..] == name1;
    assert r2[|MissingWidgetPrefix|..] == name2;
  }

  /**
   * Without `NewParamsObject` no binding takes place: the widget renders the same
   * whatever the request parameters are.
   */
  lemma NoBindingWithoutParamsObject(widgets: map<string, WidgetFactory>, name: string,
                                     params1: map<string, string>, order1: seq<string>,
                                     params2: map<string, string>, order2: seq<string>)
    requires IsEnumeration(order1, params1.Keys) && IsEnumeration(order2, params2.Keys)
    requires name in widgets && widgets[name].newParamsObject.None?
    ensures RenderWidget(widgets, name, params1, order1) == RenderWidget(widgets, name, params2, order2)
  {
    assert WidgetInput(widgets[name], params1, order1) == WidgetInput(widgets[name], params2, order2);
  }

  /**
   * `Prepare` runs only when present: without it `Render` receives the bound object
   * itself (nil when there is no `NewParamsObject`); with it, `Render` receives what
   * `Prepare` returns for the bound object.
   */
  lemma RenderInputOfWidget(widgets: map<string, WidgetFactory>, name: string,
                            params: map<string, string>, order: seq<string>)
    requires IsEnumeration(order, params.Keys)
    requires name in widgets && widgets[name].render.Some?
    ensures var w := widgets[name];
      var bound := if w.newParamsObject.Some? then StructPtr(AssignValues(params, order, w.newParamsObject.value)) else NilObject;
      && (w.prepare.None? ==> RenderWidget(widgets, name, params, order) == w.render.value(bound))
      && (w.prepare.Some? ==> RenderWidget(widgets, name, params, order) == w.render.value(w.prepare.value(bound)))
  {
  }
}
