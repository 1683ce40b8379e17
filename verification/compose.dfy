/**
 * The composition half of `buildPage` (brisk.go:90-118): the chain is folded root
 * first; each scalar attribute is overwritten by every non-empty value, and each slot
 * has the link's rendered widgets appended to it.
 */
module Compose {
  import opened Wrappers
  import opened MapOrder
  import opened Brisk
  import opened Widgets
  import opened Inheritance

  /** `renderWidget` for one request: each name is rendered with the same parameters. */
  function Renderer(widgets: map<string, WidgetFactory>, params: map<string, string>, order: seq<string>): string -> string
    requires IsEnumeration(order, params.Keys)
  {
    name => RenderWidget(widgets, name, params, order)
  }

  /** The widgets named in one slot of one link, rendered in order. */
  function RenderAll(render: string -> string, names: seq<string>): (r: seq<string>)
    ensures |r| == |names|
    ensures forall k :: 0 <= k < |names| ==> r[k] == render(names[k])
    decreases |names|
  {
    if |names| == 0 then []
    else [render(names[0])] + RenderAll(render, names[1..])
  }

  /** `if v != "" { acc = v }` */
  function Override(acc: string, v: string): string {
    if v != "" then v else acc
  }

  /** One iteration of the composition loop: fold `link` into the page built so far. */
  function ApplyLink(render: string -> string, acc: HtmlPage, link: HtmlPage): HtmlPage
  {
    acc.(title := Override(acc.title, link.title),
         bodyId := Override(acc.bodyId, link.bodyId),
         wireframe := Override(acc.wireframe, link.wireframe),
         top := acc.top + RenderAll(render, link.top),
         left := acc.left + RenderAll(render, link.left),
         center := acc.center + RenderAll(render, link.center),
         right := acc.right + RenderAll(render, link.right),
         bottom := acc.bottom + RenderAll(render, link.bottom))
  }

  /** The number of widget names `chain` lists in slot `s`. */
  function SlotTotal(chain: seq<HtmlPage>, s: Slot): nat
    decreases |chain|
  {
    if |chain| == 0 then 0 else SlotTotal(chain[..|chain| - 1], s) + |SlotOf(chain[|chain| - 1], s)|
  }

  /** The page composed from `chain`, starting from `&HtmlPage{}`; it never inherits a `Base`. */
  function ComposeChain(render: string -> string, chain: seq<HtmlPage>): (r: HtmlPage)
    ensures r.base == ""
    ensures forall s :: |SlotOf(r, s)| == SlotTotal(chain, s)
    decreases |chain|
  {
    if |chain| == 0 then EmptyPage
    else ApplyLink(render, ComposeChain(render, chain[..|chain| - 1]), chain[|chain| - 1])
  }

  /**
   * `buildPage(page, params)`: `None` when the inheritance walk never ends, otherwise
   * the composed page. Whenever it returns, it returns a page, so the
   * "buildPage failed" branch of ServeHTTP cannot be taken.
   */
  function BuildPage(site: Site, page: HtmlPage, params: map<string, string>, order: seq<string>): (r: Option<HtmlPage>)
    requires IsEnumeration(order, params.Keys)
    ensures r.Some? <==> Chain(site.pages, page).Some?
    ensures r.Some? ==> r.value.base == ""
  {
    match Chain(site.pages, page)
    case None => None
    case Some(chain) => Some(ComposeChain(Renderer(site.widgets, params, order), chain))
  }

  lemma BuildPageComposes(site: Site, page: HtmlPage, params: map<string, string>, order: seq<string>,
                          chain: seq<HtmlPage>)
    requires IsEnumeration(order, params.Keys)
    requires Chain(site.pages, page) == Some(chain)
    ensures BuildPage(site, page, params, order) == Some(ComposeChain(Renderer(site.widgets, params, order), chain))
  {
  }

  // ----- Properties of the fold -----

  lemma ApplyLinkParts(render: string -> string, acc: HtmlPage, link: HtmlPage, a: Scalar, s: Slot)
    ensures ScalarOf(ApplyLink(render, acc, link), a) == Override(ScalarOf(acc, a), ScalarOf(link, a))
    ensures SlotOf(ApplyLink(render, acc, link), s)
         == SlotOf(acc, s) + RenderAll(render, SlotOf(link, s))
  {
  }

  /** Scalar `a` of the page composed from `chain`, folded on its own. */
  function ComposedScalar(chain: seq<HtmlPage>, a: Scalar): string
    decreases |chain|
  {
    if |chain| == 0 then "" else Override(ComposedScalar(chain[..|chain| - 1], a), ScalarOf(chain[|chain| - 1], a))
  }

  lemma {:induction false} ComposeChainScalar(render: string -> string, chain: seq<HtmlPage>, a: Scalar)
    ensures ScalarOf(ComposeChain(render, chain), a) == ComposedScalar(chain, a)
    decreases |chain|
  {
    if |chain| > 0 {
      var prefix := chain[..|chain| - 1];
      ComposeChainScalar(render, prefix, a);
      ApplyLinkParts(render, ComposeChain(render, prefix), chain[|chain| - 1], a, Top);
    }
  }

  /** The folded scalar is the last non-empty value, or empty when every value is. */
  lemma {:induction false} ComposedScalarLastNonEmpty(chain: seq<HtmlPage>, a: Scalar)
    ensures var r := ComposedScalar(chain, a);
      || (r == "" && forall i :: 0 <= i < |chain| ==> ScalarOf(chain[i], a) == "")
      || (exists i :: 0 <= i < |chain| && r == ScalarOf(chain[i], a) && r != ""
                      && forall j :: i < j < |chain| ==> ScalarOf(chain[j], a) == "")
    decreases |chain|
  {
    if |chain| > 0 {
      var n := |chain|;
      var prefix := chain[..n - 1];
      ComposedScalarLastNonEmpty(prefix, a);
      var r := ComposedScalar(chain, a);
      if ScalarOf(chain[n - 1], a) == "" {
        assert r == ComposedScalar(prefix, a);
        assert forall i :: 0 <= i < n - 1 ==> prefix[i] == chain[i];
      } else {
        assert r == ScalarOf(chain[n - 1], a);
      }
    }
  }

  /**
   * Each composed scalar is the value of the last link in which it is non-empty, or
   * empty when it is empty in every link.
   */
  lemma ComposeScalarLastNonEmpty(render: string -> string, chain: seq<HtmlPage>, a: Scalar)
    ensures var r := ScalarOf(ComposeChain(render, chain), a);
      || (r == "" && forall i :: 0 <= i < |chain| ==> ScalarOf(chain[i], a) == "")
      || (exists i :: 0 <= i < |chain| && r == ScalarOf(chain[i], a) && r != ""
                      && forall j :: i < j < |chain| ==> ScalarOf(chain[j], a) == "")
  {
    ComposeChainScalar(render, chain, a);
    ComposedScalarLastNonEmpty(chain, a);
  }

  /** Where the entries of link `i` start in a composed slot. */
  function Offset(chain: seq<HtmlPage>, i: nat, s: Slot): nat
    requires i <= |chain|
  {
    SlotTotal(chain[..i], s)
  }

  /** Entries of earlier links come before entries of later links. */
  lemma {:induction false} SlotTotalGrows(chain: seq<HtmlPage>, s: Slot, i: nat, j: nat)
    requires i < j <= |chain|
    ensures Offset(chain, i, s) + |SlotOf(chain[i], s)| <= Offset(chain, j, s)
    decreases j - i
  {
    assert chain[..i + 1][..i] == chain[..i];
    assert SlotTotal(chain[..i + 1], s) == SlotTotal(chain[..i], s) + |SlotOf(chain[i], s)|;
    if i + 1 < j {
      SlotTotalGrows(chain, s, i + 1, j);
    }
  }

  /** The concatenation of `xs`, first to last. */
  function Concat<T>(xs: seq<seq<T>>): seq<T>
    decreases |xs|
  {
    if |xs| == 0 then [] else Concat(xs[..|xs| - 1]) + xs[|xs| - 1]
  }

  /** Element `k` of part `i` stands after every element of the parts before it. */
  lemma {:induction false} ConcatAt<T>(xs: seq<seq<T>>, i: nat, k: nat)
    requires i < |xs| && k < |xs[i]|
    ensures |Concat(xs[..i])| + k < |Concat(xs)|
    ensures Concat(xs)[|Concat(xs[..i])| + k] == xs[i][k]
    decreases |xs|
  {
    var n := |xs|;
    var init := xs[..n - 1];
    assert Concat(xs) == Concat(init) + xs[n - 1];
    if i < n - 1 {
      assert init[..i] == xs[..i];
      ConcatAt(init, i, k);
    } else {
      assert xs[..i] == init;
    }
  }

  /** The rendered widgets of slot `s` of every link, link by link. */
  function RenderedSlots(render: string -> string, chain: seq<HtmlPage>, s: Slot): (r: seq<seq<string>>)
    ensures |r| == |chain|
    ensures forall i :: 0 <= i < |chain| ==> r[i] == RenderAll(render, SlotOf(chain[i], s))
  {
    seq(|chain|, i requires 0 <= i < |chain| => RenderAll(render, SlotOf(chain[i], s)))
  }

  lemma {:induction false} RenderedSlotsLength(render: string -> string, chain: seq<HtmlPage>, s: Slot)
    ensures |Concat(RenderedSlots(render, chain, s))| == SlotTotal(chain, s)
    decreases |chain|
  {
    if |chain| > 0 {
      var n := |chain|;
      var parts := RenderedSlots(render, chain, s);
      assert parts[..n - 1] == RenderedSlots(render, chain[..n - 1], s);
      RenderedSlotsLength(render, chain[..n - 1], s);
    }
  }

  /** Each composed slot is the root-to-leaf concatenation of the links' rendered slots. */
  lemma {:induction false} ComposeSlotConcatenates(render: string -> string, chain: seq<HtmlPage>, s: Slot)
    ensures SlotOf(ComposeChain(render, chain), s)
         == Concat(RenderedSlots(render, chain, s))
    decreases |chain|
  {
    if |chain| > 0 {
      var n := |chain|;
      var prefix := chain[..n - 1];
      var parts := RenderedSlots(render, chain, s);
      assert parts[..n - 1] == RenderedSlots(render, prefix, s);
      ComposeSlotConcatenates(render, prefix, s);
      ApplyLinkParts(render, ComposeChain(render, prefix), chain[n - 1], TitleAttr, s);
    }
  }

  lemma ConcatSlotAt(render: string -> string, chain: seq<HtmlPage>, s: Slot, i: nat, k: nat)
    requires i < |chain| && k < |SlotOf(chain[i], s)|
    ensures Offset(chain, i, s) + k < |Concat(RenderedSlots(render, chain, s))|
    ensures Concat(RenderedSlots(render, chain, s))[Offset(chain, i, s) + k]
      == render(SlotOf(chain[i], s)[k])
  {
    var parts := RenderedSlots(render, chain, s);
    assert parts[..i] == RenderedSlots(render, chain[..i], s);
    RenderedSlotsLength(render, chain[..i], s);
    assert |Concat(parts[..i])| == Offset(chain, i, s);
    ConcatAt(parts, i, k);
  }

  /**
   * The `k`-th widget listed in slot `s` of link `i` is rendered at position
   * `Offset(chain, i, s) + k` of the composed slot.
   */
  lemma ComposeSlotAt(render: string -> string, chain: seq<HtmlPage>, s: Slot, i: nat, k: nat)
    requires i < |chain| && k < |SlotOf(chain[i], s)|
    ensures Offset(chain, i, s) + k < SlotTotal(chain, s)
    ensures SlotOf(ComposeChain(render, chain), s)[Offset(chain, i, s) + k]
      == render(SlotOf(chain[i], s)[k])
  {
    ComposeSlotConcatenates(render, chain, s);
    ConcatSlotAt(render, chain, s, i, k);
  }

  /**
   * A missing widget does not stop composition: the page is still built, the
   * placeholder stands at the missing widget's position, and every other position
   * still holds its own widget's rendering.
   */
  lemma MissingWidgetKeepsComposing(site: Site, page: HtmlPage, params: map<string, string>, order: seq<string>,
                                    chain: seq<HtmlPage>, s: Slot, i: nat, k: nat)
    requires IsEnumeration(order, params.Keys)
    requires Chain(site.pages, page) == Some(chain)
    requires i < |chain| && k < |SlotOf(chain[i], s)| && SlotOf(chain[i], s)[k] !in site.widgets
    ensures BuildPage(site, page, params, order).Some?
    ensures var composed := SlotOf(BuildPage(site, page, params, order).value, s);
      && Offset(chain, i, s) + k < |composed|
      && composed[Offset(chain, i, s) + k] == MissingWidgetPrefix + SlotOf(chain[i], s)[k]
  {
    var render := Renderer(site.widgets, params, order);
    var name := SlotOf(chain[i], s)[k];
    BuildPageComposes(site, page, params, order, chain);
    ComposeSlotAt(render, chain, s, i, k);
    assert render(name) == RenderWidget(site.widgets, name, params, order);
  }

  /**
   * A child page B whose base is A, with A.top = [w1] and B.top = [w2], composes its top
   * slot as [render(w1), render(w2)], ancestor first.
   */
  lemma AncestorWidgetsFirst(site: Site, a: HtmlPage, b: HtmlPage, params: map<string, string>, order: seq<string>)
    requires IsEnumeration(order, params.Keys)
    requires "A" in site.pages && site.pages["A"] == a && a.base !in site.pages
    requires b.base == "A" && a.top == ["w1"] && b.top == ["w2"]
    ensures BuildPage(site, b, params, order).Some?
    ensures BuildPage(site, b, params, order).value.top
         == [RenderWidget(site.widgets, "w1", params, order), RenderWidget(site.widgets, "w2", params, order)]
  {
    ChainIffShape(site.pages, b, [a, b]);
    var chain := [a, b];
    var render := Renderer(site.widgets, params, order);
    BuildPageComposes(site, b, params, order, chain);
    assert render("w1") == RenderWidget(site.widgets, "w1", params, order);
    assert render("w2") == RenderWidget(site.widgets, "w2", params, order);
    assert chain[..0] == [] && chain[..1] == [a] && chain[..2] == chain;
    assert SlotTotal([a], Top) == 1;
    ComposeSlotAt(render, chain, Top, 0, 0);
    ComposeSlotAt(render, chain, Top, 1, 0);
  }
}
