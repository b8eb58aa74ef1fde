/** Pagination shared by `/h2h` (3 games per page) and `/history` (5 games
    per page): the page count, the slice shown on a page and the
    Previous / Next / Refresh button row. */
module Paging {
  import opened Wrappers

  /** `Math.ceil(n / perPage)`. */
  function TotalPages(n: nat, perPage: nat): (t: nat)
    requires perPage > 0
    ensures n <= t * perPage
    ensures t == 0 || (t - 1) * perPage < n
  {
    (n + perPage - 1) / perPage
  }

  /** `page || 1` on a page number read from an option or a custom id:
      a missing page, 0 or `NaN` mean page 1. */
  function EffectivePage(page: Option<nat>): (p: nat)
    ensures p >= 1
    ensures page.Some? && page.value >= 1 ==> p == page.value
  {
    if page.Some? && page.value != 0 then page.value else 1
  }

  /** The index of a page's first entry, `(page - 1) * perPage`. */
  function PageStart(page: nat, perPage: nat): nat
    requires page >= 1
  {
    (page - 1) * perPage
  }

  /** `s.slice(start, start + perPage)`: a slice past the end is cut short,
      or empty. */
  function PageSlice<T>(s: seq<T>, page: nat, perPage: nat): (r: seq<T>)
    requires page >= 1
    ensures |r| <= perPage
    ensures forall k :: 0 <= k < |r| ==> PageStart(page, perPage) + k < |s| && r[k] == s[PageStart(page, perPage) + k]
    ensures |r| == if PageStart(page, perPage) >= |s| then 0
                   else if |s| - PageStart(page, perPage) < perPage then |s| - PageStart(page, perPage)
                   else perPage
  {
    var start := PageStart(page, perPage);
    if start >= |s| then []
    else if start + perPage <= |s| then s[start..start + perPage]
    else s[start..]
  }

  /** Every entry is shown on exactly the page `k / perPage + 1`, which is
      one of the `TotalPages` pages. */
  lemma EntryOnItsPage<T>(s: seq<T>, k: nat, perPage: nat)
    requires perPage > 0 && k < |s|
    ensures 1 <= k / perPage + 1 <= TotalPages(|s|, perPage)
    ensures k % perPage < |PageSlice(s, k / perPage + 1, perPage)|
    ensures PageSlice(s, k / perPage + 1, perPage)[k % perPage] == s[k]
  {
    var p := k / perPage;
    assert PageStart(p + 1, perPage) == p * perPage;
    assert p * perPage + k % perPage == k;
    assert (p + 1) * perPage == p * perPage + perPage;
    DivAtLeast(|s| + perPage - 1, perPage, p + 1);
  }

  /** `q <= x / d` as soon as `q * d <= x`. */
  lemma DivAtLeast(x: nat, d: nat, q: nat)
    requires d > 0 && q * d <= x
    ensures q <= x / d
  {
    var y, r := x / d, x % d;
    assert x == y * d + r && r < d;
    assert (y + 1) * d == y * d + d;
    if y < q {
      MulMonotone(y + 1, q, d);
      assert false;
    }
  }

  lemma MulMonotone(a: nat, b: nat, c: nat)
    requires a <= b
    ensures a * c <= b * c
  {
  }

  datatype Style = Secondary | Primary

  datatype Button = Button(customId: string, caption: string, style: Style)

  const PreviousCaption := "◀️ Previous"
  const NextCaption := "Next ▶️"
  const RefreshCaption := "🔄 Refresh"

  predicate HasCaption(buttons: seq<Button>, caption: string) {
    exists b :: b in buttons && b.caption == caption
  }

  /** The button row: "Previous" to `page - 1` when `page > 1`, "Next" to
      `page + 1` when `page < totalPages`, and always "Refresh" to `page`;
      `idFor` builds the custom id of a target page. */
  function PageButtons(page: nat, totalPages: nat, idFor: nat -> string): (buttons: seq<Button>)
    requires page >= 1
    ensures |buttons| == 1 + (if page > 1 then 1 else 0) + (if page < totalPages then 1 else 0)
    ensures page > 1 ==> buttons[0].caption == PreviousCaption
    ensures page < totalPages ==> buttons[|buttons| - 2].caption == NextCaption
    ensures HasCaption(buttons, PreviousCaption) <==> page > 1
    ensures HasCaption(buttons, NextCaption) <==> page < totalPages
    ensures buttons[|buttons| - 1] == Button(idFor(page), RefreshCaption, Primary)
    ensures forall b :: b in buttons && b.caption == PreviousCaption ==> b == Button(idFor(page - 1), PreviousCaption, Secondary)
    ensures forall b :: b in buttons && b.caption == NextCaption ==> b == Button(idFor(page + 1), NextCaption, Secondary)
  {
    var previous := if page > 1 then [Button(idFor(page - 1), PreviousCaption, Secondary)] else [];
    var next := if page < totalPages then [Button(idFor(page + 1), NextCaption, Secondary)] else [];
    previous + next + [Button(idFor(page), RefreshCaption, Primary)]
  }
}
