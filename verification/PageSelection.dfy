/** Whole-book page overview: which physical pages of a long PDF are read.

    A document no longer than the page limit keeps every page.  A longer one keeps its
    three first and three last pages and fills the remaining slots by farthest-point
    selection.  The main result, `EveryPageIsNearAChosenOne`, is the covering radius that
    this greedy rule guarantees, and `OverviewCovers` applies it to the loop itself. */
module PageSelection {
  import opened Prelude

  /** Size of the per-page bookkeeping arrays. */
  const MAX_TOTAL_PAGES := 2000

  function Gap(i: int, j: int): nat {
    if i > j then i - j else j - i
  }

  ghost function Pages(first: int, last: int): set<int> {
    Range(first, last)
  }

  /** The pages whose flag is set. */
  ghost function Chosen(flags: seq<bool>): (chosen: set<int>)
    ensures forall i :: i in chosen <==> 0 <= i < |flags| && flags[i]
  {
    set i | 0 <= i < |flags| && flags[i]
  }

  /** Distance from page `i` to the nearest chosen page, capped at `span`. */
  ghost function Distance(i: int, chosen: set<int>, span: nat): (d: nat)
    ensures d <= span
    ensures forall j :: j in chosen ==> d <= Gap(i, j)
    ensures d < span ==> exists j :: j in chosen && d == Gap(i, j)
  {
    if chosen == {} then span
    else
      var j := AnyOf(chosen);
      var rest := Distance(i, chosen - {j}, span);
      if Gap(i, j) < rest then Gap(i, j) else rest
  }

  /** `p` is the page the fill takes next: unchosen, at the greatest distance from the
      chosen pages, and the lowest-numbered such page. */
  ghost predicate IsFarthest(p: int, chosen: set<int>, first: int, last: int)
    requires first <= last
  {
    && p in Pages(first, last) - chosen
    && forall q :: q in Pages(first, last) - chosen ==>
         && Distance(q, chosen, last - first + 1) <= Distance(p, chosen, last - first + 1)
         && (Distance(q, chosen, last - first + 1) == Distance(p, chosen, last - first + 1) ==> p <= q)
  }

  /** Some page is farthest as long as one is unchosen. */
  lemma {:induction false} FarthestExists(candidates: set<int>, chosen: set<int>, span: nat) returns (p: int)
    requires candidates != {}
    ensures p in candidates
    ensures forall q :: q in candidates ==>
              && Distance(q, chosen, span) <= Distance(p, chosen, span)
              && (Distance(q, chosen, span) == Distance(p, chosen, span) ==> p <= q)
    decreases candidates
  {
    var c := AnyOf(candidates);
    p := c;
    if candidates - {c} != {} {
      var other := FarthestExists(candidates - {c}, chosen, span);
      if Distance(other, chosen, span) > Distance(c, chosen, span)
         || (Distance(other, chosen, span) == Distance(c, chosen, span) && other < c) {
        p := other;
      }
    }
    assert forall q :: q in candidates ==> q == c || q in candidates - {c};
  }

  ghost function Farthest(chosen: set<int>, first: int, last: int): (p: int)
    requires first <= last
    requires Pages(first, last) - chosen != {}
    ensures IsFarthest(p, chosen, first, last)
  {
    assert exists p :: IsFarthest(p, chosen, first, last) by {
      var p := FarthestExists(Pages(first, last) - chosen, chosen, last - first + 1);
      assert IsFarthest(p, chosen, first, last);
    }
    var p :| IsFarthest(p, chosen, first, last);
    p
  }

  /** The specification of the fill: keep taking the farthest page until the limit. */
  ghost function Fill(chosen: set<int>, first: int, last: int, limit: int): (filled: set<int>)
    requires first <= last
    requires chosen <= Pages(first, last)
    ensures chosen <= filled <= Pages(first, last)
    ensures |chosen| >= limit ==> filled == chosen
    ensures |chosen| <= limit <= |Pages(first, last)| ==> |filled| == limit
    decreases limit - |chosen|
  {
    if |chosen| >= limit || Pages(first, last) - chosen == {} then
      assert Pages(first, last) - chosen == {} ==> Pages(first, last) == chosen + (Pages(first, last) - chosen);
      chosen
    else
      Fill(chosen + {Farthest(chosen, first, last)}, first, last, limit)
  }

  ghost function Anchors(first: int, last: int): set<int> {
    Range(first, first + 2) + Range(last - 2, last)
  }

  /** The overview the planner should produce for pages `first..last`. */
  ghost function Overview(first: int, last: int, limit: int): set<int> {
    if last < first then {}
    else if last - first + 1 <= limit || last - first + 1 <= 1 then Pages(first, last)
    else
      var anchors := Anchors(first, last) * Pages(first, last);
      Fill(anchors, first, last, limit)
  }

  // ----- The farthest-point invariant and the packing argument -----

  /** Any two pages of `chosen` that are not both anchors are at least `r` apart. */
  ghost predicate Separated(chosen: set<int>, anchors: set<int>, r: nat) {
    forall x, y :: x in chosen && y in chosen && x != y && (x !in anchors || y !in anchors) ==> Gap(x, y) >= r
  }

  ghost predicate AtLeastFrom(q: int, chosen: set<int>, r: nat) {
    forall x :: x in chosen ==> Gap(q, x) >= r
  }

  /** The farthest page is at least as far from the chosen ones as any other page. */
  lemma FarthestDominates(chosen: set<int>, first: int, last: int, q: int, r: nat)
    requires first <= last
    requires Pages(first, last) - chosen != {}
    requires q in Pages(first, last) && r <= last - first + 1
    requires AtLeastFrom(q, chosen, r)
    ensures AtLeastFrom(Farthest(chosen, first, last), chosen, r)
  {
    var p, span := Farthest(chosen, first, last), last - first + 1;
    if q in chosen {
      assert Gap(q, q) >= r;
    } else {
      assert r <= Distance(q, chosen, span);
      assert q in Pages(first, last) - chosen;
    }
  }

  lemma SeparatedExtends(chosen: set<int>, anchors: set<int>, p: int, r: nat)
    requires Separated(chosen, anchors, r)
    requires AtLeastFrom(p, chosen, r)
    ensures Separated(chosen + {p}, anchors, r)
  {
  }

  /** A page that stays `r` away from the whole fill forces every filled page to have
      been taken at distance at least `r`. */
  lemma {:induction false} FillStaysSeparated(chosen: set<int>, anchors: set<int>, first: int, last: int, limit: int,
                                             q: int, r: nat)
    requires first <= last
    requires chosen <= Pages(first, last)
    requires q in Pages(first, last)
    requires r <= last - first + 1
    requires AtLeastFrom(q, Fill(chosen, first, last, limit), r)
    requires Separated(chosen, anchors, r)
    ensures Separated(Fill(chosen, first, last, limit), anchors, r)
    decreases limit - |chosen|
  {
    if |chosen| < limit && Pages(first, last) - chosen != {} {
      var p := Farthest(chosen, first, last);
      assert p !in chosen;
      assert chosen <= Fill(chosen, first, last, limit);
      FarthestDominates(chosen, first, last, q, r);
      SeparatedExtends(chosen, anchors, p, r);
      FillStaysSeparated(chosen + {p}, anchors, first, last, limit, q, r);
    }
  }

  ghost predicate PairwiseApart(points: set<int>, r: nat) {
    forall x, y :: x in points && y in points && x != y ==> Gap(x, y) >= r
  }

  lemma {:induction false} GreatestPoint(points: set<int>) returns (m: int)
    requires points != {}
    ensures m in points && forall x :: x in points ==> x <= m
    decreases points
  {
    var c := AnyOf(points);
    m := c;
    if points - {c} != {} {
      var other := GreatestPoint(points - {c});
      if other > c { m := other; }
    }
    assert forall x :: x in points ==> x == c || x in points - {c};
  }

  /** Packing: k + 1 points pairwise `r` apart in [lo, hi] need hi - lo >= k * r. */
  lemma {:induction false} Packing(points: set<int>, lo: int, hi: int, r: nat)
    requires points != {}
    requires forall x :: x in points ==> lo <= x <= hi
    requires PairwiseApart(points, r)
    ensures (|points| - 1) * r <= hi - lo
    decreases points
  {
    var m := GreatestPoint(points);
    var rest := points - {m};
    if rest == {} {
      assert |points| == 1 by { assert points == {m}; }
    } else {
      forall x | x in rest ensures lo <= x <= m - r {
        assert Gap(x, m) >= r;
      }
      Packing(rest, lo, m - r, r);
      assert (|points| - 1) * r == (|rest| - 1) * r + r;
    }
  }

  /** Covering radius of the overview.  A page `q` that is at least `r` away from every
      chosen page can exist only if (limit - 4) * r <= count - 5. */
  lemma EveryPageIsNearAChosenOne(first: int, last: int, limit: int, q: int, r: nat)
    requires limit >= 6
    requires last - first + 1 > limit
    requires first <= q <= last
    requires AtLeastFrom(q, Overview(first, last, limit), r)
    ensures (limit - 4) * r <= last - first + 1 - 5
  {
    var anchors := Anchors(first, last);
    AnchorFacts(first, last);
    var chosen := Fill(anchors, first, last, limit);
    assert Overview(first, last, limit) == chosen by { assert anchors * Pages(first, last) == anchors; }
    RangeSize(first, last);
    assert |chosen| == limit;
    assert Gap(q, first) >= r;
    if r == 0 { return; }
    FillStaysSeparated(anchors, anchors, first, last, limit, q, r);
    assert q !in chosen by { assert Gap(q, q) == 0; }
    // The two inner anchors, every filled page and q itself are pairwise r apart.
    InnerPointsApart(chosen, first, last, q, r);
    var points := InnerPoints(chosen, first, last) + {q};
    Packing(points, first + 2, last - 2, r);
  }

  /** The chosen pages without the two outermost pages of either end. */
  ghost function InnerPoints(chosen: set<int>, first: int, last: int): set<int> {
    chosen - {first, first + 1, last - 1, last}
  }

  lemma InnerPointsCount(chosen: set<int>, first: int, last: int)
    requires last - first + 1 > 6
    requires Anchors(first, last) <= chosen
    ensures |InnerPoints(chosen, first, last)| == |chosen| - 4
  {
    var outer := {first, first + 1, last - 1, last};
    assert outer <= Anchors(first, last);
    assert |outer| == 4;
    assert chosen == outer + InnerPoints(chosen, first, last);
  }

  lemma InnerPointsApart(chosen: set<int>, first: int, last: int, q: int, r: nat)
    requires last - first + 1 > 6
    requires Anchors(first, last) <= chosen <= Pages(first, last)
    requires q in Pages(first, last) && q !in chosen
    requires AtLeastFrom(q, chosen, r)
    requires Separated(chosen, Anchors(first, last), r)
    ensures |InnerPoints(chosen, first, last) + {q}| == |chosen| - 3
    ensures PairwiseApart(InnerPoints(chosen, first, last) + {q}, r)
    ensures forall x :: x in InnerPoints(chosen, first, last) + {q} ==> first + 2 <= x <= last - 2
  {
    InnerPointsCount(chosen, first, last);
    forall x, y | x in InnerPoints(chosen, first, last) + {q} && y in InnerPoints(chosen, first, last) + {q} && x != y
      ensures Gap(x, y) >= r
    {
      InnerPairApart(chosen, first, last, q, r, x, y);
    }
  }

  lemma InnerPairApart(chosen: set<int>, first: int, last: int, q: int, r: nat, x: int, y: int)
    requires last - first + 1 > 6
    requires Anchors(first, last) <= chosen <= Pages(first, last)
    requires q in Pages(first, last) && q !in chosen
    requires AtLeastFrom(q, chosen, r)
    requires Separated(chosen, Anchors(first, last), r)
    requires x != y && (x == q || x in InnerPoints(chosen, first, last)) && (y == q || y in InnerPoints(chosen, first, last))
    ensures Gap(x, y) >= r
  {
    if x != q && y != q && x in Anchors(first, last) && y in Anchors(first, last) {
      // x and y are the two innermost anchors, and q lies between them.
      assert Gap(q, x) >= r && Gap(q, y) >= r;
      assert q !in Anchors(first, last);
    } else if x == q || y == q {
      assert Gap(q, x) >= r || Gap(q, y) >= r;
    }
  }

  lemma AnchorFacts(first: int, last: int)
    requires last - first + 1 >= 6
    ensures Anchors(first, last) <= Pages(first, last)
    ensures |Anchors(first, last)| == 6
  {
    assert Anchors(first, last) == {first, first + 1, first + 2, last - 2, last - 1, last};
  }

  /** Both ends survive the fill and the page budget is used exactly. */
  lemma OverviewSize(first: int, last: int, limit: int)
    requires last - first + 1 > limit >= 6
    ensures |Overview(first, last, limit)| == limit
    ensures Anchors(first, last) <= Overview(first, last, limit) <= Pages(first, last)
  {
    AnchorFacts(first, last);
    RangeSize(first, last);
    assert Anchors(first, last) * Pages(first, last) == Anchors(first, last);
  }

  /** Every page of a sampled book has a chosen page within `radius` steps, for a radius
      with (limit - 4) * radius <= count - 5. */
  lemma OverviewCovers(first: int, last: int, limit: int) returns (radius: nat)
    requires last - first + 1 > limit >= 6
    ensures (limit - 4) * radius <= last - first + 1 - 5
    ensures forall q :: q in Pages(first, last) ==>
              exists p :: p in Overview(first, last, limit) && Gap(q, p) <= radius
  {
    var n, d := last - first + 1 - 5, limit - 4;
    radius := n / d;
    QuotientBound(n, d, radius);
    forall q | q in Pages(first, last)
      ensures exists p :: p in Overview(first, last, limit) && Gap(q, p) <= radius
    {
      if AtLeastFrom(q, Overview(first, last, limit), radius + 1) {
        EveryPageIsNearAChosenOne(first, last, limit, q, radius + 1);
      }
    }
  }

  lemma QuotientBound(n: nat, d: int, q: int)
    requires d > 0 && q == n / d
    ensures 0 <= d * q <= n < d * (q + 1)
  {
    assert n == d * q + n % d;
    assert d * (q + 1) == d * q + d;
  }

  // ----- The loops -----

  lemma CountStep(flags: seq<bool>, first: int, i: int)
    requires 0 <= first <= i < |flags|
    ensures |Chosen(flags) * Pages(first, i)| ==
            |Chosen(flags) * Pages(first, i - 1)| + if flags[i] then 1 else 0
  {
    var before, after := Chosen(flags) * Pages(first, i - 1), Chosen(flags) * Pages(first, i);
    if flags[i] {
      assert after == before + {i};
    } else {
      assert after == before;
    }
  }

  lemma ChosenStep(flags: seq<bool>, i: int)
    requires 0 <= i < |flags|
    ensures Chosen(flags[i := true]) == Chosen(flags) + {i}
  {
  }

  method SelectedCount(selected: array<bool>, first: int, last: int) returns (n: int)
    requires 0 <= first <= last < selected.Length
    ensures n == |Chosen(selected[..]) * Pages(first, last)|
  {
    n := 0;
    ghost var flags := selected[..];
    assert Chosen(flags) * Pages(first, first - 1) == {};
    var i := first;
    while i <= last
      invariant first <= i <= last + 1
      invariant n == |Chosen(flags) * Pages(first, i - 1)|
      decreases last - i
    {
      CountStep(flags, first, i);
      if selected[i] { n := n + 1; }
      i := i + 1;
    }
  }

  /** Distance is the only value with the three properties its contract lists. */
  lemma DistanceUnique(i: int, chosen: set<int>, span: nat, d: int)
    requires 0 <= d <= span
    requires forall j :: j in chosen ==> d <= Gap(i, j)
    requires d == span || exists j :: j in chosen && d == Gap(i, j)
    ensures d == Distance(i, chosen, span)
  {
  }

  /** Nearest chosen page by a scan of the range. */
  method NearestChosen(selected: array<bool>, first: int, last: int, i: int) returns (nearest: int)
    requires 0 <= first <= last < selected.Length
    requires Chosen(selected[..]) <= Pages(first, last)
    ensures nearest == Distance(i, Chosen(selected[..]), last - first + 1)
  {
    ghost var chosen, span := Chosen(selected[..]), last - first + 1;
    nearest := last - first + 1;
    var j := first;
    while j <= last
      invariant first <= j <= last + 1
      invariant 0 <= nearest <= span
      invariant forall k :: k in chosen && k < j ==> nearest <= Gap(i, k)
      invariant nearest == span || exists k :: k in chosen && nearest == Gap(i, k)
      decreases last - j
    {
      if selected[j] {
        assert j in chosen;
        var d := if i > j then i - j else j - i;
        if d < nearest {
          nearest := d;
          assert nearest == Gap(i, j);
        }
      }
      j := j + 1;
    }
    DistanceUnique(i, chosen, span, nearest);
  }

  /** What the scan knows after looking at the pages below `i`. */
  ghost predicate BestBelow(best: int, bestDist: int, chosen: set<int>, first: int, last: int, i: int)
    requires first <= last
  {
    var span, open := last - first + 1, Pages(first, last) - chosen;
    if best < 0 then
      bestDist == -1 && forall q :: q in open ==> i <= q
    else
      && best in open && best < i && bestDist == Distance(best, chosen, span)
      && forall q :: q in open && q < i ==>
           && Distance(q, chosen, span) <= bestDist
           && (Distance(q, chosen, span) == bestDist ==> best <= q)
  }

  lemma BestBelowDone(best: int, bestDist: int, chosen: set<int>, first: int, last: int)
    requires first <= last
    requires BestBelow(best, bestDist, chosen, first, last, last + 1)
    ensures best < 0 <==> Pages(first, last) - chosen == {}
    ensures best >= 0 ==> IsFarthest(best, chosen, first, last)
  {
    if best < 0 {
      assert IsEmpty(Pages(first, last) - chosen);
    }
  }

  /** One step of the fill: -1 when every page is chosen, else the farthest page. */
  method FarthestPage(selected: array<bool>, first: int, last: int) returns (best: int)
    requires 0 <= first <= last < selected.Length
    requires Chosen(selected[..]) <= Pages(first, last)
    ensures best < 0 <==> Pages(first, last) - Chosen(selected[..]) == {}
    ensures best >= 0 ==> IsFarthest(best, Chosen(selected[..]), first, last)
  {
    best := -1;
    var bestDist := -1;
    ghost var chosen := Chosen(selected[..]);
    var i := first;
    while i <= last
      invariant first <= i <= last + 1
      invariant BestBelow(best, bestDist, chosen, first, last, i)
      decreases last - i
    {
      if !selected[i] {
        var nearest := NearestChosen(selected, first, last, i);
        if nearest > bestDist { best, bestDist := i, nearest; }
      }
      i := i + 1;
    }
    BestBelowDone(best, bestDist, chosen, first, last);
  }

  lemma FarthestUnique(chosen: set<int>, first: int, last: int, p: int)
    requires first <= last
    requires IsFarthest(p, chosen, first, last)
    ensures p == Farthest(chosen, first, last)
  {
  }

  /** A limit below one acts as one: the anchors already exceed it. */
  lemma FillCap(anchors: set<int>, first: int, last: int, limit: int, cap: int)
    requires first <= last
    requires anchors <= Pages(first, last) && first in anchors
    requires cap == limit || limit < cap == 1
    ensures Fill(anchors, first, last, limit) == Fill(anchors, first, last, cap)
  {
    assert {first} <= anchors;
    CardinalityMonotone({first}, anchors);
  }

  /** The fill loop, from any set of chosen pages. */
  method FillToLimit(selected: array<bool>, first: int, last: int, cap: int) returns (total: int)
    requires 0 <= first <= last < selected.Length
    requires Chosen(selected[..]) <= Pages(first, last)
    modifies selected
    ensures Chosen(selected[..]) == Fill(old(Chosen(selected[..])), first, last, cap)
    ensures total == |Chosen(selected[..])|
  {
    ghost var start := Chosen(selected[..]);
    total := SelectedCount(selected, first, last);
    assert start * Pages(first, last) == start;
    while total < cap
      invariant Chosen(selected[..]) <= Pages(first, last)
      invariant total == |Chosen(selected[..])|
      invariant Fill(Chosen(selected[..]), first, last, cap) == Fill(start, first, last, cap)
      decreases cap - total
    {
      var best := FarthestPage(selected, first, last);
      if best < 0 { break; }
      FarthestUnique(Chosen(selected[..]), first, last, best);
      total := MarkPage(selected, first, last, best);
    }
  }

  method MarkPage(selected: array<bool>, first: int, last: int, best: int) returns (total: int)
    requires 0 <= first <= best <= last < selected.Length && !selected[best]
    requires Chosen(selected[..]) <= Pages(first, last)
    modifies selected
    ensures Chosen(selected[..]) == old(Chosen(selected[..])) + {best}
    ensures Chosen(selected[..]) <= Pages(first, last) && total == |Chosen(selected[..])| == |old(Chosen(selected[..]))| + 1
  {
    ghost var flags := selected[..];
    selected[best] := true;
    assert selected[..] == flags[best := true];
    ChosenStep(flags, best);
    total := SelectedCount(selected, first, last);
    assert Chosen(selected[..]) * Pages(first, last) == Chosen(selected[..]);
  }

  /** `first..last` are the zero-based pages of the request; an empty range selects
      nothing and a limit below one counts as one. */
  method SelectInteractivePages(selected: array<bool>, first: int, last: int, limit: int) returns (total: int)
    requires selected.Length == MAX_TOTAL_PAGES
    requires 0 <= first && last < MAX_TOTAL_PAGES
    modifies selected
    ensures Chosen(selected[..]) == Overview(first, last, limit)
    ensures total == |Chosen(selected[..])|
  {
    forall i | 0 <= i < selected.Length { selected[i] := false; }
    assert Chosen(selected[..]) == {};
    var count := last - first + 1;
    if count <= 0 { return 0; }
    var cap := limit;
    if cap > count { cap := count; }
    if cap < 1 { cap := 1; }
    if count <= cap {
      MarkUp(selected, first, count);
      RangeSize(first, last);
      return count;
    }

    MarkAnchors(selected, first, last);
    FillCap(Anchors(first, last) * Pages(first, last), first, last, limit, cap);
    total := FillToLimit(selected, first, last, cap);
  }

  /** Front and back matter: up to three pages at either end. */
  method MarkAnchors(selected: array<bool>, first: int, last: int)
    requires 0 <= first <= last < selected.Length
    requires Chosen(selected[..]) == {}
    modifies selected
    ensures Chosen(selected[..]) == Anchors(first, last) * Pages(first, last)
  {
    var count := last - first + 1;
    MarkUp(selected, first, if count < 3 then count else 3);
    MarkDown(selected, last, if count < 3 then count else 3);
  }

  /** Set the flags of `n` pages upward from `from`. */
  method MarkUp(selected: array<bool>, from: int, n: int)
    requires 0 <= from && 0 <= n && from + n <= selected.Length
    modifies selected
    ensures Chosen(selected[..]) == old(Chosen(selected[..])) + Range(from, from + n - 1)
  {
    ghost var before := Chosen(selected[..]);
    var k := 0;
    assert before + Range(from, from - 1) == before;
    while k < n
      invariant 0 <= k <= n
      invariant Chosen(selected[..]) == before + Range(from, from + k - 1)
    {
      ghost var flags := selected[..];
      selected[from + k] := true;
      assert selected[..] == flags[from + k := true];
      ChosenStep(flags, from + k);
      k := k + 1;
    }
  }

  /** Set the flags of `n` pages downward from `from`. */
  method MarkDown(selected: array<bool>, from: int, n: int)
    requires from < selected.Length && 0 <= n <= from + 1
    modifies selected
    ensures Chosen(selected[..]) == old(Chosen(selected[..])) + Range(from - n + 1, from)
  {
    ghost var before := Chosen(selected[..]);
    var k := 0;
    assert before + Range(from + 1, from) == before;
    while k < n
      invariant 0 <= k <= n
      invariant Chosen(selected[..]) == before + Range(from - k + 1, from)
    {
      ghost var flags := selected[..];
      selected[from - k] := true;
      assert selected[..] == flags[from - k := true];
      ChosenStep(flags, from - k);
      assert Range(from - k, from) == Range(from - k + 1, from) + {from - k};
      k := k + 1;
    }
  }
}
