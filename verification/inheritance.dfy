/**
 * The inheritance walk of `buildPage` (brisk.go:84-88): starting from the requested
 * page, `Base` names are looked up in the page registry until one is missing, and the
 * pages found are put in front of the chain. On a cyclic `Base` chain the Go loop
 * never ends; the model detects the revisit and answers `None`.
 */
module Inheritance {
  import opened Wrappers
  import opened Brisk

  /**
   * The ancestors reached from `base`, root first. `visited` holds the page names
   * already looked up; meeting one of them again means the walk would go round forever.
   */
  function Ancestors(pages: map<string, HtmlPage>, base: string, visited: set<string>): Option<seq<HtmlPage>>
    decreases pages.Keys - visited
  {
    if base !in pages then Some([])
    else if base in visited then None
    else
      assert pages.Keys - (visited + {base}) < pages.Keys - visited;
      match Ancestors(pages, pages[base].base, visited + {base})
      case None => None
      case Some(older) => Some(older + [pages[base]])
  }

  /** The inheritance chain of `page`, root first and `page` last; `None` when the walk never ends. */
  function Chain(pages: map<string, HtmlPage>, page: HtmlPage): Option<seq<HtmlPage>> {
    match Ancestors(pages, page.base, {})
    case None => None
    case Some(older) => Some(older + [page])
  }

  /**
   * The shape of an inheritance chain: it ends with `page`, every other link is the
   * page named by the `Base` of the link after it, and the first link's `Base` names
   * no page.
   */
  ghost predicate IsChainOf(pages: map<string, HtmlPage>, page: HtmlPage, chain: seq<HtmlPage>) {
    && |chain| > 0
    && chain[|chain| - 1] == page
    && (forall i :: 0 < i < |chain| ==> chain[i].base in pages && chain[i - 1] == pages[chain[i].base])
    && chain[0].base !in pages
  }

  // ----- The Go loop, step by step -----

  /** The name the loop looks up after following `Base` `n` times from `key`, if it gets that far. */
  ghost function KeyAfter(pages: map<string, HtmlPage>, key: string, n: nat): Option<string>
    decreases n
  {
    if n == 0 then Some(key)
    else if key in pages then KeyAfter(pages, pages[key].base, n - 1)
    else None
  }

  /** The loop `for chainLink := Pages[base]; chainLink != nil; ...` executes its body an `n`-th time (counting from 0). */
  ghost predicate LoopRuns(pages: map<string, HtmlPage>, base: string, n: nat) {
    KeyAfter(pages, base, n).Some? && KeyAfter(pages, base, n).value in pages
  }

  lemma {:induction false} KeyAfterShift(pages: map<string, HtmlPage>, key: string, a: nat, b: nat)
    ensures KeyAfter(pages, key, a + b) ==
      (match KeyAfter(pages, key, a) case Some(k) => KeyAfter(pages, k, b) case None => None)
    decreases a
  {
    if a > 0 && key in pages {
      KeyAfterShift(pages, pages[key].base, a - 1, b);
    }
  }

  lemma LoopRunsIffNextKey(pages: map<string, HtmlPage>, key: string, n: nat)
    ensures LoopRuns(pages, key, n) <==> KeyAfter(pages, key, n + 1).Some?
  {
    KeyAfterShift(pages, key, n, 1);
  }

  /** A key on a path that goes on for `m` steps is reached by each shorter prefix. */
  lemma KeyAfterPrefix(pages: map<string, HtmlPage>, key: string, n: nat, m: nat)
    requires n <= m && KeyAfter(pages, key, m).Some?
    ensures KeyAfter(pages, key, n).Some?
  {
    KeyAfterShift(pages, key, n, m - n);
  }

  /** From a name that leads back to itself, the loop runs for ever. */
  lemma {:induction false} CycleRunsForever(pages: map<string, HtmlPage>, c: string, j: nat, n: nat)
    requires j >= 1 && KeyAfter(pages, c, j) == Some(c)
    ensures KeyAfter(pages, c, n).Some?
    decreases n
  {
    if n < j {
      KeyAfterPrefix(pages, c, n, j);
    } else {
      KeyAfterShift(pages, c, j, n - j);
      CycleRunsForever(pages, c, j, n - j);
    }
  }

  /** Following `Base` from `v` one or more times reaches `target`. */
  ghost predicate LeadsTo(pages: map<string, HtmlPage>, v: string, target: string) {
    exists i: nat :: i >= 1 && KeyAfter(pages, v, i) == Some(target)
  }

  /** When the walk from `base` answers `None`, `base` leads into a cycle. */
  lemma {:induction false} AncestorsNoneFindsCycle(pages: map<string, HtmlPage>, base: string, visited: set<string>)
    returns (c: string, m: nat, j: nat)
    requires forall v :: v in visited ==> LeadsTo(pages, v, base)
    requires Ancestors(pages, base, visited).None?
    ensures KeyAfter(pages, base, m) == Some(c) && j >= 1 && KeyAfter(pages, c, j) == Some(c)
    decreases pages.Keys - visited
  {
    if base in visited {
      var i: nat :| i >= 1 && KeyAfter(pages, base, i) == Some(base);
      c, m, j := base, 0, i;
    } else {
      var next := pages[base].base;
      assert KeyAfter(pages, base, 1) == Some(next);
      forall v | v in visited + {base}
        ensures LeadsTo(pages, v, next)
      {
        if v == base {
          assert KeyAfter(pages, v, 1) == Some(next);
        } else {
          var i: nat :| i >= 1 && KeyAfter(pages, v, i) == Some(base);
          KeyAfterShift(pages, v, i, 1);
          assert KeyAfter(pages, v, i + 1) == Some(next);
        }
      }
      assert pages.Keys - (visited + {base}) < pages.Keys - visited;
      var m';
      c, m', j := AncestorsNoneFindsCycle(pages, next, visited + {base});
      m := m' + 1;
    }
  }

  /** `None` is answered exactly when the Go loop would run for ever. */
  lemma ChainNoneMeansLoopNeverEnds(pages: map<string, HtmlPage>, page: HtmlPage)
    requires Chain(pages, page).None?
    ensures forall n: nat :: LoopRuns(pages, page.base, n)
  {
    var c, m, j := AncestorsNoneFindsCycle(pages, page.base, {});
    forall n: nat
      ensures LoopRuns(pages, page.base, n)
    {
      LoopRunsIffNextKey(pages, page.base, n);
      if n + 1 <= m {
        KeyAfterPrefix(pages, page.base, n + 1, m);
      } else {
        KeyAfterShift(pages, page.base, m, n + 1 - m);
        CycleRunsForever(pages, c, j, n + 1 - m);
      }
    }
  }

  /**
   * A walk that answers `Some(older)` mirrors the Go loop: it runs exactly `|older|`
   * times, and its `k`-th iteration prepends the page `older[|older| - 1 - k]`.
   */
  lemma {:induction false} AncestorsMatchLoop(pages: map<string, HtmlPage>, base: string, visited: set<string>)
    requires Ancestors(pages, base, visited).Some?
    ensures var older := Ancestors(pages, base, visited).value;
      && !LoopRuns(pages, base, |older|)
      && forall k :: 0 <= k < |older| ==>
           LoopRuns(pages, base, k) && older[|older| - 1 - k] == pages[KeyAfter(pages, base, k).value]
    decreases pages.Keys - visited
  {
    var older := Ancestors(pages, base, visited).value;
    if base in pages {
      var next := pages[base].base;
      assert pages.Keys - (visited + {base}) < pages.Keys - visited;
      AncestorsMatchLoop(pages, next, visited + {base});
      var older' := Ancestors(pages, next, visited + {base}).value;
      assert older == older' + [pages[base]];
      forall k | 0 <= k < |older|
        ensures LoopRuns(pages, base, k) && older[|older| - 1 - k] == pages[KeyAfter(pages, base, k).value]
      {
        if k > 0 {
          assert KeyAfter(pages, base, k) == KeyAfter(pages, next, k - 1);
        }
      }
      assert KeyAfter(pages, base, |older|) == KeyAfter(pages, next, |older'|);
    }
  }

  /**
   * A chain that the walk finds has `n + 1` links when the Go loop runs `n` times, and
   * it lists `page` after its ancestors in the order the loop prepends them.
   */
  lemma ChainMatchesLoop(pages: map<string, HtmlPage>, page: HtmlPage)
    requires Chain(pages, page).Some?
    ensures var chain := Chain(pages, page).value;
      && !LoopRuns(pages, page.base, |chain| - 1)
      && (forall k :: 0 <= k < |chain| - 1 ==> LoopRuns(pages, page.base, k))
      && chain[|chain| - 1] == page
  {
    AncestorsMatchLoop(pages, page.base, {});
  }

  /** The walk's ancestors, if any, end with the page `base` names, and start with a root. */
  lemma {:induction false} AncestorsShape(pages: map<string, HtmlPage>, base: string, visited: set<string>)
    requires Ancestors(pages, base, visited).Some?
    ensures var older := Ancestors(pages, base, visited).value;
      && (|older| == 0 <==> base !in pages)
      && (|older| > 0 ==> older[|older| - 1] == pages[base] && older[0].base !in pages)
      && (forall i :: 0 < i < |older| ==> older[i].base in pages && older[i - 1] == pages[older[i].base])
    decreases pages.Keys - visited
  {
    if base in pages {
      var next := pages[base].base;
      assert pages.Keys - (visited + {base}) < pages.Keys - visited;
      AncestorsShape(pages, next, visited + {base});
    }
  }

  /** Every chain the walk finds has the shape of an inheritance chain. */
  lemma ChainShape(pages: map<string, HtmlPage>, page: HtmlPage)
    requires Chain(pages, page).Some?
    ensures IsChainOf(pages, page, Chain(pages, page).value)
  {
    AncestorsShape(pages, page.base, {});
  }

  /** At most one sequence has the shape of the inheritance chain of a page. */
  lemma {:induction false} ChainShapeUnique(pages: map<string, HtmlPage>, page: HtmlPage, c1: seq<HtmlPage>, c2: seq<HtmlPage>)
    requires IsChainOf(pages, page, c1) && IsChainOf(pages, page, c2)
    ensures c1 == c2
    decreases |c1|
  {
    if |c1| > 1 {
      assert c1[|c1| - 1].base in pages;
    }
    if |c2| > 1 {
      assert c2[|c2| - 1].base in pages;
    }
    if page.base !in pages {
      assert c1 == [page] == c2;
    } else {
      var parent := pages[page.base];
      var d1, d2 := c1[..|c1| - 1], c2[..|c2| - 1];
      assert IsChainOf(pages, parent, d1);
      assert IsChainOf(pages, parent, d2);
      ChainShapeUnique(pages, parent, d1, d2);
      assert c1 == d1 + [page] && c2 == d2 + [page];
    }
  }

  /** Along a chain of that shape, the loop visits the `Base` names from the leaf upwards. */
  lemma {:induction false} ShapeKeys(pages: map<string, HtmlPage>, page: HtmlPage, chain: seq<HtmlPage>, k: nat)
    requires IsChainOf(pages, page, chain) && k < |chain|
    ensures KeyAfter(pages, page.base, k) == Some(chain[|chain| - 1 - k].base)
    decreases k
  {
    if k > 0 {
      ShapeKeys(pages, page, chain, k - 1);
      KeyAfterShift(pages, page.base, k - 1, 1);
      var x := chain[|chain| - k].base;
      assert x in pages && pages[x] == chain[|chain| - 1 - k];
      assert KeyAfter(pages, x, 1) == KeyAfter(pages, pages[x].base, 0);
    }
  }

  /**
   * The walk finds a chain exactly when a sequence of inheritance-chain shape exists,
   * and then it is that sequence.
   */
  lemma ChainIffShape(pages: map<string, HtmlPage>, page: HtmlPage, chain: seq<HtmlPage>)
    ensures Chain(pages, page) == Some(chain) <==> IsChainOf(pages, page, chain)
  {
    if Chain(pages, page) == Some(chain) {
      ChainShape(pages, page);
    }
    if IsChainOf(pages, page, chain) {
      ShapeKeys(pages, page, chain, |chain| - 1);
      assert !LoopRuns(pages, page.base, |chain| - 1);
      if Chain(pages, page).None? {
        ChainNoneMeansLoopNeverEnds(pages, page);
        assert false;
      }
      ChainShape(pages, page);
      ChainShapeUnique(pages, page, chain, Chain(pages, page).value);
    }
  }
}
