/** Page choice for a targeted read: up to three anchors by score, kept apart where
    possible, then their neighbours, then further hits. */
module SemanticPages {
  import opened Prelude

  const PRIMARY_MAX: nat := 3

  /** A page's hybrid score; None where no passage scored. */
  type Scores = seq<Option<int>>

  predicate Near(p: int, anchors: seq<int>) {
    exists k :: 0 <= k < |anchors| && -1 <= p - anchors[k] <= 1
  }

  /** Scored, in range and not yet chosen. */
  predicate Candidate(scores: Scores, first: nat, last: nat, chosen: set<int>, p: int) {
    first <= p <= last < |scores| && scores[p].Some? && p !in chosen
  }

  predicate Apart(scores: Scores, first: nat, last: nat, chosen: set<int>, anchors: seq<int>, p: int) {
    Candidate(scores, first, last, chosen, p) && !Near(p, anchors)
  }

  /** The first of the highest-scoring candidates. */
  ghost predicate BestCandidate(scores: Scores, first: nat, last: nat, chosen: set<int>, p: int) {
    && Candidate(scores, first, last, chosen, p)
    && forall q :: Candidate(scores, first, last, chosen, q) ==>
         scores[q].value < scores[p].value || (scores[q].value == scores[p].value && p <= q)
  }

  /** The first of the highest-scoring candidates away from the anchors. */
  ghost predicate BestApart(scores: Scores, first: nat, last: nat, chosen: set<int>, anchors: seq<int>, p: int) {
    && Apart(scores, first, last, chosen, anchors, p)
    && forall q :: Apart(scores, first, last, chosen, anchors, q) ==>
         scores[q].value < scores[p].value || (scores[q].value == scores[p].value && p <= q)
  }

  ghost predicate NoCandidate(scores: Scores, first: nat, last: nat, chosen: set<int>) {
    forall q :: !Candidate(scores, first, last, chosen, q)
  }

  ghost predicate NoneApart(scores: Scores, first: nat, last: nat, chosen: set<int>, anchors: seq<int>) {
    forall q :: !Apart(scores, first, last, chosen, anchors, q)
  }

  ghost function Members(anchors: seq<int>): set<int> { set a | a in anchors }

  /** The next anchor: the best page apart from the others, or the best page at all when every
      remaining hit lies next to an anchor. */
  ghost predicate NextAnchor(scores: Scores, first: nat, last: nat, anchors: seq<int>, p: int) {
    var chosen := Members(anchors);
    || BestApart(scores, first, last, chosen, anchors, p)
    || (NoneApart(scores, first, last, chosen, anchors) && BestCandidate(scores, first, last, chosen, p))
  }

  /** The flags hold exactly the chosen pages. */
  ghost predicate Marks(selected: array<bool>, chosen: set<int>)
    reads selected
  {
    forall i :: 0 <= i < selected.Length ==> (selected[i] <==> i in chosen)
  }

  method IsNear(p: int, anchors: seq<int>) returns (near: bool)
    ensures near == Near(p, anchors)
  {
    near := false;
    for k := 0 to |anchors|
      invariant near <==> exists j :: 0 <= j < k && -1 <= p - anchors[j] <= 1
    {
      if -1 <= p - anchors[k] <= 1 { near := true; }
    }
  }

  /** One pass over the range; the first pass skips the neighbours of anchors. */
  method Search(selected: array<bool>, scores: Scores, first: nat, last: nat, ghost chosen: set<int>, anchors: seq<int>, apart: bool)
    returns (best: int)
    requires last < |scores| && last < selected.Length && Marks(selected, chosen)
    ensures apart ==> if best >= 0 then BestApart(scores, first, last, chosen, anchors, best)
                      else best == -1 && NoneApart(scores, first, last, chosen, anchors)
    ensures !apart ==> if best >= 0 then BestCandidate(scores, first, last, chosen, best)
                       else best == -1 && NoCandidate(scores, first, last, chosen)
  {
    best := -1;
    var i: int := first;
    while i <= last
      invariant first <= i
      invariant best == -1 || (first <= best < i && Candidate(scores, first, last, chosen, best) && (apart ==> !Near(best, anchors)))
      invariant forall q :: Candidate(scores, first, last, chosen, q) && q < i && (apart ==> !Near(q, anchors)) ==>
                  best >= 0 && (scores[q].value < scores[best].value || (scores[q].value == scores[best].value && best <= q))
      decreases last - i
    {
      var near := false;
      if apart { near := IsNear(i, anchors); }
      if !selected[i] && scores[i].Some? && !near && (best < 0 || scores[i].value > scores[best].value) {
        best := i;
      }
      i := i + 1;
    }
  }

  lemma MembersAre(anchors: seq<int>)
    ensures forall a :: a in Members(anchors) <==> a in anchors
  {
  }

  /** Up to three anchors. */
  method ChooseAnchors(selected: array<bool>, scores: Scores, first: nat, last: nat, cap: nat)
    returns (anchors: seq<int>, ghost chosen: set<int>)
    requires first <= last < |scores| && last < selected.Length && Marks(selected, {})
    modifies selected
    ensures Marks(selected, chosen) && chosen == Members(anchors) && |chosen| == |anchors| <= cap
    ensures forall k :: 0 <= k < |anchors| ==> NextAnchor(scores, first, last, anchors[..k], anchors[k])
    ensures forall p :: p in chosen ==> first <= p <= last
    ensures |anchors| < cap ==> NoCandidate(scores, first, last, chosen)
  {
    anchors, chosen := [], {};
    while |anchors| < cap
      invariant Marks(selected, chosen) && chosen == Members(anchors) && |chosen| == |anchors| <= cap
      invariant forall k :: 0 <= k < |anchors| ==> NextAnchor(scores, first, last, anchors[..k], anchors[k])
      invariant forall p :: p in chosen ==> first <= p <= last
      decreases cap - |anchors|
    {
      var best := Search(selected, scores, first, last, chosen, anchors, true);
      if best < 0 { best := Search(selected, scores, first, last, chosen, anchors, false); }
      if best < 0 { return; }
      selected[best] := true;
      AnchorStep(scores, first, last, anchors, best);
      anchors, chosen := anchors + [best], chosen + {best};
    }
  }

  lemma AnchorStep(scores: Scores, first: nat, last: nat, anchors: seq<int>, best: int)
    requires forall k :: 0 <= k < |anchors| ==> NextAnchor(scores, first, last, anchors[..k], anchors[k])
    requires NextAnchor(scores, first, last, anchors, best)
    ensures var all := anchors + [best];
            forall k :: 0 <= k < |all| ==> NextAnchor(scores, first, last, all[..k], all[k])
    ensures Members(anchors + [best]) == Members(anchors) + {best}
  {
    var all := anchors + [best];
    forall k | 0 <= k < |all| ensures NextAnchor(scores, first, last, all[..k], all[k]) {
      if k < |anchors| { assert all[..k] == anchors[..k]; } else { assert all[..k] == anchors; }
    }
  }

  predicate Neighbour(p: int, anchors: seq<int>) {
    exists k :: 0 <= k < |anchors| && -2 <= p - anchors[k] <= 2
  }

  predicate Within(p: int, anchor: int, distance: int) { -distance <= p - anchor <= distance }

  /** The pages of the range within `distance` of the first `n` anchors are chosen. */
  ghost predicate Covered(first: nat, last: nat, anchors: seq<int>, n: int, distance: int, chosen: set<int>) {
    forall k, p :: 0 <= k < n && k < |anchors| && first <= p <= last && Within(p, anchors[k], distance) ==> p in chosen
  }

  /** What was added two steps away was added after everything one step away. */
  ghost predicate NearFirst(first: nat, last: nat, anchors: seq<int>, chosen: set<int>, grown: set<int>) {
    (exists p :: p in grown && p !in chosen && !Near(p, anchors)) ==> Covered(first, last, anchors, |anchors|, 1, grown)
  }

  /** The neighbours of the anchors in the order in which they are tried: those one away before
      those two away, anchor by anchor, the page before an anchor first. */
  ghost function Queue(anchors: seq<int>): seq<int> {
    seq(4 * |anchors|, i requires 0 <= i < 4 * |anchors| =>
      var distance := if i < 2 * |anchors| then 1 else 2;
      var place := if i < 2 * |anchors| then i else i - 2 * |anchors|;
      if place % 2 == 0 then anchors[place / 2] - distance else anchors[place / 2] + distance)
  }

  /** Exactly the neighbours among the first `m` tried were added, as far as they are in range. */
  ghost predicate AddedInOrder(first: nat, last: nat, anchors: seq<int>, chosen: set<int>, grown: set<int>, m: nat) {
    m <= |Queue(anchors)| && grown == chosen + set p | p in Queue(anchors)[..m] && first <= p <= last
  }

  lemma NothingAdded(first: nat, last: nat, anchors: seq<int>, chosen: set<int>)
    ensures AddedInOrder(first, last, anchors, chosen, chosen, 0) && |Queue(anchors)| == 4 * |anchors|
  {
    assert Queue(anchors)[..0] == [];
  }

  lemma AddedNext(first: nat, last: nat, anchors: seq<int>, chosen: set<int>, grown: set<int>, m: nat, page: int)
    requires AddedInOrder(first, last, anchors, chosen, grown, m) && m < |Queue(anchors)| && page == Queue(anchors)[m]
    ensures AddedInOrder(first, last, anchors, chosen, if first <= page <= last then grown + {page} else grown, m + 1)
  {
    assert Queue(anchors)[..m + 1] == Queue(anchors)[..m] + [page];
  }

  /** Where the neighbours of anchor `k` at this distance stand in the queue of `n` anchors. */
  ghost function Place(n: nat, distance: int, k: nat): nat {
    (if distance <= 1 then 0 else if distance == 2 then 2 * n else 4 * n) + 2 * k
  }

  lemma QueueAt(anchors: seq<int>, distance: int, k: nat)
    requires 1 <= distance <= 2 && k < |anchors|
    ensures |Queue(anchors)| == 4 * |anchors|
    ensures var m := Place(|anchors|, distance, k);
            m + 1 < |Queue(anchors)| && Queue(anchors)[m] == anchors[k] - distance && Queue(anchors)[m + 1] == anchors[k] + distance
  {
  }

  /** Pages up to two away from an anchor, near ones first, until there is no room. */
  method AddNeighbours(selected: array<bool>, first: nat, last: nat, limit: nat, anchors: seq<int>, ghost chosen: set<int>)
    returns (ghost grown: set<int>, count: nat, ghost m: nat)
    requires last < selected.Length && Marks(selected, chosen) && |chosen| == |anchors| <= limit
    requires chosen == Members(anchors) && forall p :: p in chosen ==> first <= p <= last
    modifies selected
    ensures Marks(selected, grown) && chosen <= grown && |grown| == count <= limit
    ensures forall p :: p in grown ==> first <= p <= last && (p in chosen || Neighbour(p, anchors))
    ensures count < limit ==> Covered(first, last, anchors, |anchors|, 2, grown)
    ensures NearFirst(first, last, anchors, chosen, grown)
    ensures AddedInOrder(first, last, anchors, chosen, grown, m) && (count < limit ==> m == |Queue(anchors)|)
  {
    hide AddedInOrder, Queue;
    grown, count, m := chosen, |anchors|, 0;
    NothingAdded(first, last, anchors, chosen);
    for distance := 1 to 3
      invariant Marks(selected, grown) && |grown| == count <= limit
      invariant AddedInOrder(first, last, anchors, chosen, grown, m) && (count < limit ==> m == Place(|anchors|, distance, 0))
      invariant Spread(first, last, anchors, chosen, grown, distance, 0, count < limit)
    {
      for k := 0 to |anchors|
        invariant Marks(selected, grown) && |grown| == count <= limit
        invariant AddedInOrder(first, last, anchors, chosen, grown, m)
        invariant count < limit ==> m == Place(|anchors|, distance, k)
        invariant Spread(first, last, anchors, chosen, grown, distance, k, count < limit)
      {
        grown, count, m := AddPair(selected, first, last, limit, anchors, k, distance, chosen, grown, count, m);
      }
    }
  }

  /** The spreading from the anchors has reached anchor `k` at this distance; `room` says that
      more pages fit. */
  ghost predicate Spread(first: nat, last: nat, anchors: seq<int>, chosen: set<int>, grown: set<int>, distance: int, k: int, room: bool) {
    && chosen <= grown && 1 <= distance <= 3
    && (forall p :: p in grown ==> first <= p <= last && (p in chosen || Neighbour(p, anchors)))
    && (room ==> Covered(first, last, anchors, |anchors|, distance - 1, grown) && Covered(first, last, anchors, k, distance, grown))
    && (forall p :: p in grown && p !in chosen && !Near(p, anchors) ==> Covered(first, last, anchors, |anchors|, 1, grown))
    && (distance == 1 ==> forall p :: p in grown ==> p in chosen || Near(p, anchors))
  }

  /** The pages on both sides of one anchor. */
  method AddPair(selected: array<bool>, first: nat, last: nat, limit: nat, anchors: seq<int>, k: nat, distance: int,
                 ghost chosen: set<int>, ghost before: set<int>, used: nat, ghost done: nat)
    returns (ghost grown: set<int>, count: nat, ghost m: nat)
    requires last < selected.Length && k < |anchors| && 1 <= distance <= 2
    requires AddedInOrder(first, last, anchors, chosen, before, done) && (used < limit ==> done == Place(|anchors|, distance, k))
    requires Marks(selected, before) && |before| == used <= limit
    requires Spread(first, last, anchors, chosen, before, distance, k, used < limit)
    modifies selected
    ensures Marks(selected, grown) && |grown| == count <= limit
    ensures Spread(first, last, anchors, chosen, grown, distance, k + 1, count < limit)
    ensures AddedInOrder(first, last, anchors, chosen, grown, m) && used <= count
    ensures count < limit ==> m == Place(|anchors|, distance, k) + 2
  {
    hide AddedInOrder, Queue, Spread, Marks, Covered, Neighbour, Near, Within;
    QueueAt(anchors, distance, k);
    ghost var low;
    low, count, m := AddSide(selected, first, last, limit, anchors, k, distance, anchors[k] - distance, chosen, before, used, done);
    grown, count, m := AddSide(selected, first, last, limit, anchors, k, distance, anchors[k] + distance, chosen, low, count, m);
    SpreadNext(first, last, anchors, chosen, grown, distance, k, count < limit);
  }

  method AddSide(selected: array<bool>, first: nat, last: nat, limit: nat, anchors: seq<int>, ghost k: nat, ghost distance: int,
                 page: int, ghost chosen: set<int>, ghost before: set<int>, used: nat, ghost done: nat)
    returns (ghost grown: set<int>, count: nat, ghost m: nat)
    requires last < selected.Length && k < |anchors| && distance <= 2
    requires page == anchors[k] - distance || page == anchors[k] + distance
    requires Marks(selected, before) && |before| == used <= limit
    requires Spread(first, last, anchors, chosen, before, distance, k, used < limit)
    requires AddedInOrder(first, last, anchors, chosen, before, done)
    requires used < limit ==> done < |Queue(anchors)| && Queue(anchors)[done] == page
    modifies selected
    ensures Marks(selected, grown) && |grown| == count <= limit && used <= count && before <= grown
    ensures Spread(first, last, anchors, chosen, grown, distance, k, count < limit)
    ensures count < limit && first <= page <= last ==> page in grown
    ensures AddedInOrder(first, last, anchors, chosen, grown, m) && (used < limit ==> m == done + 1)
  {
    hide AddedInOrder, Queue;
    m := done;
    if used < limit { AddedNext(first, last, anchors, chosen, before, done, page); m := done + 1; }
    CardinalityMonotone(before, before + {page});
    SpreadPage(first, last, anchors, chosen, before, distance, k, page, used < limit);
    grown, count := AddPage(selected, first, last, limit, page, before, used);
  }

  lemma SpreadPage(first: nat, last: nat, anchors: seq<int>, chosen: set<int>, grown: set<int>, distance: int, k: nat,
                   page: int, room: bool)
    requires k < |anchors| && distance <= 2 && (page == anchors[k] - distance || page == anchors[k] + distance)
    requires Spread(first, last, anchors, chosen, grown, distance, k, room)
    ensures Spread(first, last, anchors, chosen, grown, distance, k, false)
    ensures room && first <= page <= last ==>
              Spread(first, last, anchors, chosen, grown + {page}, distance, k, true)
              && Spread(first, last, anchors, chosen, grown + {page}, distance, k, false)
  {
    assert Neighbour(page, anchors);
    assert distance == 1 ==> Near(page, anchors);
  }

  lemma SpreadNext(first: nat, last: nat, anchors: seq<int>, chosen: set<int>, grown: set<int>, distance: int, k: nat, room: bool)
    requires k < |anchors| && Spread(first, last, anchors, chosen, grown, distance, k, room)
    requires room && first <= anchors[k] - distance <= last ==> anchors[k] - distance in grown
    requires room && first <= anchors[k] + distance <= last ==> anchors[k] + distance in grown
    ensures Spread(first, last, anchors, chosen, grown, distance, k + 1, room)
  {
    forall p | room && first <= p <= last && Within(p, anchors[k], distance) ensures p in grown {
      assert Within(p, anchors[k], distance - 1) || p == anchors[k] - distance || p == anchors[k] + distance;
    }
  }

  method AddPage(selected: array<bool>, first: nat, last: nat, limit: nat, page: int, ghost chosen: set<int>, count: nat)
    returns (ghost grown: set<int>, total: nat)
    requires last < selected.Length && Marks(selected, chosen) && |chosen| == count <= limit
    modifies selected
    ensures Marks(selected, grown) && |grown| == total <= limit
    ensures grown == if count < limit && first <= page <= last then chosen + {page} else chosen
  {
    grown, total := chosen, count;
    if count < limit && first <= page <= last {
      grown := chosen + {page};
      if selected[page] {
        assert grown == chosen;
      } else {
        selected[page] := true;
        total := count + 1;
      }
    }
  }

  /** Pages left over go to the best hits not chosen yet. */
  method FillSpare(selected: array<bool>, scores: Scores, first: nat, last: nat, room: nat, anchors: seq<int>,
                   ghost near: set<int>, used: nat)
    returns (ghost chosen: set<int>, count: nat)
    requires first <= last < |scores| && last < selected.Length && Marks(selected, near) && |near| == used <= room
    requires forall p :: p in near ==> first <= p <= last
    requires used < room ==> Covered(first, last, anchors, |anchors|, 2, near)
    modifies selected
    ensures Marks(selected, chosen) && |chosen| == count <= room && near <= chosen && (used == room ==> chosen == near)
    ensures count < room ==> NoCandidate(scores, first, last, chosen)
    ensures forall p :: p in chosen ==> first <= p <= last && (p in near || scores[p].Some?)
    ensures forall p :: p in chosen && p !in near ==>
              && Covered(first, last, anchors, |anchors|, 2, chosen)
              && forall q :: Candidate(scores, first, last, chosen, q) ==> scores[q].value <= scores[p].value
    ensures count < room ==> Covered(first, last, anchors, |anchors|, 2, chosen)
  {
    chosen, count := near, used;
    var more := true;
    while count < room && more
      invariant Marks(selected, chosen) && |chosen| == count <= room && near <= chosen && (used == room ==> chosen == near)
      invariant forall p :: p in chosen ==> first <= p <= last && (p in near || scores[p].Some?)
      invariant used < room ==> Covered(first, last, anchors, |anchors|, 2, near)
      invariant forall p :: p in chosen && p !in near ==>
                  && Covered(first, last, anchors, |anchors|, 2, chosen)
                  && forall q :: Candidate(scores, first, last, chosen, q) ==> scores[q].value <= scores[p].value
      invariant !more ==> NoCandidate(scores, first, last, chosen)
      decreases room - count, more
    {
      var best := Search(selected, scores, first, last, chosen, anchors, false);
      if best < 0 {
        more := false;
      } else {
        selected[best] := true;
        chosen, count := chosen + {best}, count + 1;
      }
    }
  }

  /** The whole choice.  At most `limit` pages of the range; fewer than the range allows only
      when every scored page is chosen; each chosen page is an anchor, lies within two pages
      of one, or has a score; the neighbours are the first ones of their queue; anchors are picked greedily, apart from each other while any
      hit apart is left. */
  method SelectSemanticPages(selected: array<bool>, scores: Scores, first: nat, last: nat, limit: int)
    returns (count: nat, anchors: seq<int>, ghost chosen: set<int>, ghost near: set<int>, ghost tried: nat)
    requires last < |scores| && last < selected.Length
    modifies selected
    ensures Marks(selected, chosen) && |chosen| == count
    ensures near <= chosen && AddedInOrder(first, last, anchors, Members(anchors), near, tried)
    ensures near != chosen ==> tried == |Queue(anchors)|
    ensures var room := if limit < 1 || last < first then 0 else if limit < last - first + 1 then limit else last - first + 1;
            && count <= room && (count < room ==> NoCandidate(scores, first, last, chosen))
            && |anchors| <= PRIMARY_MAX
            && (|anchors| < PRIMARY_MAX && |anchors| < room ==> forall q :: first <= q <= last && scores[q].Some? ==> q in anchors)
    ensures forall k :: 0 <= k < |anchors| ==> anchors[k] in chosen && NextAnchor(scores, first, last, anchors[..k], anchors[k])
    ensures forall p :: p in chosen ==>
              first <= p <= last && (p in anchors || Neighbour(p, anchors) || (scores[p].Some?))
    ensures var full := limit < 1 || last < first || count == limit || count == last - first + 1;
            full || Covered(first, last, anchors, |anchors|, 2, chosen)
    ensures forall p :: p in chosen && !Neighbour(p, anchors) ==>
              && Covered(first, last, anchors, |anchors|, 2, chosen)
              && forall q :: Candidate(scores, first, last, chosen, q) ==> scores[q].value <= scores[p].value
  {
    for i := 0 to selected.Length
      invariant forall j :: 0 <= j < i ==> !selected[j]
    {
      selected[i] := false;
    }
    hide AddedInOrder, Queue, Members;
    count, anchors, chosen, near, tried := 0, [], {}, {}, 0;
    MembersAre([]);
    assert Members([]) == {};
    NothingAdded(first, last, [], {});
    var pages := last - first + 1;
    var room := if limit > pages then pages else limit;
    if room < 1 { return; }
    var cap := if room < PRIMARY_MAX then room else PRIMARY_MAX;
    anchors, chosen := ChooseAnchors(selected, scores, first, last, cap);
    MembersAre(anchors);
    ghost var few := |anchors| < cap;
    ghost var hits := chosen;
    chosen, count, tried := AddNeighbours(selected, first, last, room, anchors, chosen);
    near := chosen;
    chosen, count := FillSpare(selected, scores, first, last, room, anchors, near, count);
    forall q | few && first <= q <= last && scores[q].Some? ensures q in anchors {
      assert !Candidate(scores, first, last, hits, q);
    }
  }

  /** The best-scored page of the range is always the first anchor. */
  lemma FirstAnchorIsBest(scores: Scores, first: nat, last: nat, p: int)
    requires NextAnchor(scores, first, last, [], p)
    ensures first <= p <= last < |scores| && scores[p].Some?
    ensures forall q :: first <= q <= last && scores[q].Some? ==> scores[q].value <= scores[p].value
  {
    var none: seq<int> := [];
    assert (set a | a in none) == {};
    forall q | first <= q <= last < |scores| && scores[q].Some? ensures scores[q].value <= scores[p].value {
      assert Candidate(scores, first, last, {}, q) && Apart(scores, first, last, {}, [], q);
    }
  }

  /** Two anchors are neighbours only when, at the second one's turn, every hit that was left
      lay next to an anchor. */
  lemma AnchorsApart(scores: Scores, first: nat, last: nat, anchors: seq<int>, p: int)
    requires NextAnchor(scores, first, last, anchors, p) && Near(p, anchors)
    ensures forall q :: first <= q <= last && scores[q].Some? && q !in anchors ==> Near(q, anchors)
  {
    var chosen := Members(anchors);
    forall q | first <= q <= last < |scores| && scores[q].Some? && q !in anchors ensures Near(q, anchors) {
      assert !Apart(scores, first, last, chosen, anchors, q);
    }
  }
}
