/**
 * The `while not quit` loop of `search_by_tags`: pages through search
 * results, keeps the records with at least `popu` bookmarks, and stops on
 * reaching the quota or after the first page shorter than
 * `min(quantity - at_hand, 30)`, which is still scanned in full.
 */
module TagSearch {
  import opened Text
  import opened Quota
  import opened Resolver
  import opened Engine

  /** The records of the first `n` pages, concatenated in order. */
  function Scanned(pages: seq<seq<Illust>>, n: nat): seq<Illust>
  {
    if n == 0 then [] else Scanned(pages, n - 1) + PageAt(pages, n - 1)
  }

  /** The records of `s` with `total_bookmarks >= popu`, in order. */
  function Popular(s: seq<Illust>, popu: int): seq<Illust>
  {
    if s == [] then []
    else Popular(s[..|s| - 1], popu) + (if s[|s| - 1].totalBookmarks >= popu then [s[|s| - 1]] else [])
  }

  /** The first `n` elements of `s`, or all of `s` when it is shorter. */
  function Take(s: seq<Illust>, n: nat): (r: seq<Illust>)
    ensures |r| == if |s| <= n then |s| else n
    ensures r == s[..|r|]
  {
    if |s| <= n then s else s[..n]
  }

  lemma {:induction false} PopularAppend(a: seq<Illust>, b: seq<Illust>, popu: int)
    ensures Popular(a + b, popu) == Popular(a, popu) + Popular(b, popu)
    decreases |b|
  {
    if b == [] {
      assert a + b == a;
    } else {
      var last := b[|b| - 1];
      assert (a + b)[..|a + b| - 1] == a + b[..|b| - 1];
      PopularAppend(a, b[..|b| - 1], popu);
    }
  }

  /** Every kept record meets the popularity floor. */
  lemma {:induction false} PopularMeetsFloor(s: seq<Illust>, popu: int)
    ensures forall k :: 0 <= k < |Popular(s, popu)| ==> Popular(s, popu)[k].totalBookmarks >= popu
    decreases |s|
  {
    if s != [] {
      PopularMeetsFloor(s[..|s| - 1], popu);
    }
  }

  /** The positions in `s` of the records `Popular` keeps. */
  function PopularIndices(s: seq<Illust>, popu: int): seq<nat>
  {
    if s == [] then []
    else PopularIndices(s[..|s| - 1], popu) + (if s[|s| - 1].totalBookmarks >= popu then [|s| - 1] else [])
  }

  /** The kept records are an order-preserving subsequence of `s`: they sit at strictly increasing positions. */
  lemma {:induction false} PopularIsSubsequence(s: seq<Illust>, popu: int)
    ensures |PopularIndices(s, popu)| == |Popular(s, popu)|
    ensures forall k :: 0 <= k < |PopularIndices(s, popu)| ==>
      PopularIndices(s, popu)[k] < |s| && Popular(s, popu)[k] == s[PopularIndices(s, popu)[k]]
    ensures forall k, l :: 0 <= k < l < |PopularIndices(s, popu)| ==> PopularIndices(s, popu)[k] < PopularIndices(s, popu)[l]
    decreases |s|
  {
    if s != [] {
      PopularIsSubsequence(s[..|s| - 1], popu);
    }
  }

  /** A record of `s` is kept exactly when it meets the floor: no record with `total_bookmarks >= popu` is dropped. */
  lemma {:induction false} PopularIndicesExact(s: seq<Illust>, popu: int)
    ensures forall j :: 0 <= j < |s| ==> (j in PopularIndices(s, popu) <==> s[j].totalBookmarks >= popu)
    decreases |s|
  {
    if s != [] {
      var p := s[..|s| - 1];
      PopularIndicesExact(p, popu);
      PopularIndicesBelow(p, popu);
      assert forall j :: 0 <= j < |p| ==> p[j] == s[j];
    }
  }

  /** Every kept position lies inside `s`. */
  lemma {:induction false} PopularIndicesBelow(s: seq<Illust>, popu: int)
    ensures forall j :: j in PopularIndices(s, popu) ==> 0 <= j < |s|
    decreases |s|
  {
    if s != [] {
      PopularIndicesBelow(s[..|s| - 1], popu);
    }
  }

  /**
   * Page `p` ends the search: after it the quota is met, or it is shorter
   * than `min(quantity - at_hand, 30)` where `at_hand` counts the records kept
   * from the pages before it.
   */
  predicate Stops(pages: seq<seq<Illust>>, quantity: int, popu: int, p: nat)
  {
    || |Popular(Scanned(pages, p + 1), popu)| >= quantity
    || |PageAt(pages, p)| < Min(quantity - |Popular(Scanned(pages, p), popu)|, PageQuantity)
  }

  /** The search sends exactly `n` page requests: page `n - 1` is the first that ends it. */
  predicate FirstStopAt(pages: seq<seq<Illust>>, quantity: int, popu: int, n: nat)
  {
    && n >= 1
    && Stops(pages, quantity, popu, n - 1)
    && forall p :: 0 <= p < n - 1 ==> !Stops(pages, quantity, popu, p)
  }

  /** The number of page requests is determined by the pages, the quota and the floor. */
  lemma FirstStopUnique(pages: seq<seq<Illust>>, quantity: int, popu: int, n1: nat, n2: nat)
    requires FirstStopAt(pages, quantity, popu, n1) && FirstStopAt(pages, quantity, popu, n2)
    ensures n1 == n2
  {
  }

  lemma {:induction false} ScannedPastEnd(pages: seq<seq<Illust>>, n: nat)
    requires n >= |pages|
    ensures Scanned(pages, n + 1) == Scanned(pages, n)
  {
    assert PageAt(pages, n) == [];
    assert Scanned(pages, n) + [] == Scanned(pages, n);
  }

  /** The page just past the results always ends the search, so it sends at most `len(pages) + 1` requests. */
  lemma StopsPastResults(pages: seq<seq<Illust>>, quantity: int, popu: int)
    requires quantity >= 1
    ensures Stops(pages, quantity, popu, |pages|)
  {
    ScannedPastEnd(pages, |pages|);
  }

  /** Scanning one more record of the current page keeps it or not. */
  lemma PopularStep(before: seq<Illust>, page: seq<Illust>, i: nat, popu: int)
    requires i < |page|
    ensures Popular(before + page[..i + 1], popu)
         == Popular(before + page[..i], popu) + (if page[i].totalBookmarks >= popu then [page[i]] else [])
  {
    assert (before + page[..i + 1])[..|before| + i] == before + page[..i];
  }

  /** A page on which the quota is met: the records kept so far are the first `quantity` of the whole page's. */
  lemma QuotaMetOnPage(before: seq<Illust>, page: seq<Illust>, quantity: nat, popu: int, i: nat, illusts: seq<Illust>)
    requires i < |page|
    requires illusts == Popular(before + page[..i + 1], popu)
    requires |illusts| == quantity
    ensures |Popular(before + page, popu)| >= quantity
    ensures illusts == Take(Popular(before + page, popu), quantity)
  {
    assert before + page[..i + 1] + page[i + 1..] == before + page;
    PopularAppend(before + page[..i + 1], page[i + 1..], popu);
  }

  /**
   * The inner `for illust in cur_page_illusts` loop: appends each record with
   * at least `popu` bookmarks and breaks as soon as `at_hand == quantity`.
   * Given the records kept from the earlier pages `before`, it leaves the first
   * `quantity` records kept from `before + page`, and reports whether the
   * quota was met.
   */
  method ScanPage(page: seq<Illust>, quantity: int, popu: int, ghost before: seq<Illust>, illusts: seq<Illust>, atHand: int)
    returns (illusts': seq<Illust>, atHand': int, hit: bool)
    requires illusts == Popular(before, popu) && atHand == |illusts| < quantity
    ensures illusts' == Take(Popular(before + page, popu), quantity)
    ensures atHand' == |illusts'|
    ensures hit <==> |Popular(before + page, popu)| >= quantity
  {
    illusts', atHand', hit := illusts, atHand, false;
    assert before + page[..0] == before;
    for i := 0 to |page|
      invariant atHand' == |illusts'| < quantity
      invariant illusts' == Popular(before + page[..i], popu)
    {
      var illust := page[i];
      PopularStep(before, page, i, popu);
      if illust.totalBookmarks >= popu {
        illusts' := illusts' + [illust];
        atHand' := atHand' + 1;
      }
      if atHand' == quantity {
        hit := true;
        QuotaMetOnPage(before, page, quantity, popu, i, illusts');
        return;
      }
    }
    assert page[..|page|] == page;
  }

  /** The loop is still running before page `c`: no earlier page ended it, and `kept` holds their popular records. */
  predicate Searching(pages: seq<seq<Illust>>, quantity: int, popu: int, kept: seq<Illust>, c: nat)
  {
    && c <= |pages|
    && kept == Popular(Scanned(pages, c), popu)
    && |kept| < quantity
    && forall p :: 0 <= p < c ==> !Stops(pages, quantity, popu, p)
  }

  /** The loop has ended after `n` pages, keeping the first `quantity` popular records of those pages. */
  predicate Ended(pages: seq<seq<Illust>>, quantity: int, popu: int, kept: seq<Illust>, n: nat)
  {
    && quantity >= 1
    && FirstStopAt(pages, quantity, popu, n)
    && n <= |pages| + 1
    && kept == Take(Popular(Scanned(pages, n), popu), quantity)
  }

  /** A pass over page `c` that finds it short or meets the quota ends the loop after `c + 1` requests. */
  lemma PassEnds(pages: seq<seq<Illust>>, quantity: int, popu: int, c: nat, kept: seq<Illust>, illusts': seq<Illust>)
    requires quantity >= 1
    requires Searching(pages, quantity, popu, kept, c)
    requires Stops(pages, quantity, popu, c)
    requires illusts' == Take(Popular(Scanned(pages, c + 1), popu), quantity)
    ensures Ended(pages, quantity, popu, illusts', c + 1)
  {
  }

  /** A pass over page `c` that finds it full and leaves the quota unmet keeps the loop going. */
  lemma PassContinues(pages: seq<seq<Illust>>, quantity: int, popu: int, c: nat, kept: seq<Illust>, illusts': seq<Illust>)
    requires quantity >= 1
    requires Searching(pages, quantity, popu, kept, c)
    requires !Stops(pages, quantity, popu, c)
    requires illusts' == Take(Popular(Scanned(pages, c + 1), popu), quantity)
    ensures Searching(pages, quantity, popu, illusts', c + 1)
  {
    assert c < |pages| by {
      if c == |pages| {
        StopsPastResults(pages, quantity, popu);
      }
    }
  }

  /** One pass over page `c`: the loop ends after it exactly when it is short or meets the quota. */
  lemma PassOutcome(pages: seq<seq<Illust>>, quantity: int, popu: int, c: nat, kept: seq<Illust>, illusts': seq<Illust>, short: bool, hit: bool)
    requires quantity >= 1
    requires Searching(pages, quantity, popu, kept, c)
    requires short <==> |PageAt(pages, c)| < Min(quantity - |kept|, PageQuantity)
    requires illusts' == Take(Popular(Scanned(pages, c) + PageAt(pages, c), popu), quantity)
    requires hit <==> |Popular(Scanned(pages, c) + PageAt(pages, c), popu)| >= quantity
    ensures short || hit ==> Ended(pages, quantity, popu, illusts', c + 1)
    ensures !(short || hit) ==> Searching(pages, quantity, popu, illusts', c + 1)
  {
    assert Scanned(pages, c + 1) == Scanned(pages, c) + PageAt(pages, c);
    assert Stops(pages, quantity, popu, c) <==> short || hit;
    if short || hit {
      PassEnds(pages, quantity, popu, c, kept, illusts');
    } else {
      PassContinues(pages, quantity, popu, c, kept, illusts');
    }
  }

  /**
   * The loop as written, for `quantity >= 1`. It returns the kept records,
   * `at_hand` and `cur_page`, the number of page requests sent.
   */
  method TagLoop(pages: seq<seq<Illust>>, quantity: int, popu: int) returns (illusts: seq<Illust>, atHand: int, curPage: nat)
    requires quantity >= 1
    ensures atHand == |illusts| <= quantity
    ensures Ended(pages, quantity, popu, illusts, curPage)
  {
    illusts := [];
    atHand := 0;
    curPage := 0;
    var quit := false;
    while !quit
      invariant atHand == |illusts|
      invariant if quit then Ended(pages, quantity, popu, illusts, curPage)
                else Searching(pages, quantity, popu, illusts, curPage)
      decreases if quit then 0 else |pages| + 1 - curPage
    {
      var curPageIllusts := PageAt(pages, curPage);
      var short := |curPageIllusts| < Min(quantity - atHand, PageQuantity);
      if short {
        quit := true;
      }
      ghost var kept := illusts;
      var hit;
      illusts, atHand, hit := ScanPage(curPageIllusts, quantity, popu, Scanned(pages, curPage), illusts, atHand);
      if hit {
        quit := true;
      }
      PassOutcome(pages, quantity, popu, curPage, kept, illusts, short, hit);
      curPage := curPage + 1;
    }
  }

  /**
   * `search_by_tags`, with a quantity below 1 refused (as written, such a
   * quantity makes the loop run forever; see `TagZeroQuantityNeverQuits`).
   * The tags are joined by spaces into the search word; the partial-result
   * warning is given when some but fewer than `quantity` records were kept.
   */
  method SearchByTags(tags: seq<string>, quantity: int, popu: int, pages: seq<seq<Illust>>) returns (r: Round)
    ensures quantity < 1 ==> r == Rejected(TooFewRequested)
    ensures quantity >= 1 ==>
      && r.Finished?
      && r.query == SearchQuery(Join(tags, " "))
      && Ended(pages, quantity, popu, r.illusts, r.pageRequests)
      && r.pairs == AllIoPairs(r.illusts)
      && r.partial == (0 < |r.illusts| < quantity)
  {
    if quantity < 1 {
      return Rejected(TooFewRequested);
    }
    var word := Join(tags, " ");
    var illusts, atHand, curPage := TagLoop(pages, quantity, popu);
    r := Finished(SearchQuery(word), illusts, AllIoPairs(illusts), curPage, 0 < |illusts| < quantity);
  }

  /**
   * Every record a tag search keeps meets the popularity floor and comes
   * from one of the pages it scanned.
   */
  lemma TagResultsMeetFloor(pages: seq<seq<Illust>>, quantity: nat, popu: int, n: nat)
    ensures var kept := Take(Popular(Scanned(pages, n), popu), quantity);
      forall k :: 0 <= k < |kept| ==> kept[k].totalBookmarks >= popu && kept[k] in Scanned(pages, n)
  {
    var s := Scanned(pages, n);
    PopularMeetsFloor(s, popu);
    PopularIsSubsequence(s, popu);
    var kept := Take(Popular(s, popu), quantity);
    forall k | 0 <= k < |kept|
      ensures kept[k] in s
    {
      assert kept[k] == Popular(s, popu)[k] == s[PopularIndices(s, popu)[k]];
    }
  }

  // ---- The loop exactly as written, for every quantity ----

  /** The loop variables of `search_by_tags`. */
  datatype TagState = TagState(illusts: seq<Illust>, atHand: int, curPage: nat, quit: bool)

  /**
   * The inner `for` loop as written: appends the records meeting the floor
   * and stops as soon as `at_hand == quantity`. Returns the new list, the new
   * `at_hand` and whether it stopped on the quota.
   */
  function ScanAsWritten(page: seq<Illust>, quantity: int, popu: int, illusts: seq<Illust>, atHand: int): (r: (seq<Illust>, int, bool))
    ensures |illusts| <= |r.0| <= |illusts| + |page| && r.0[..|illusts|] == illusts
    ensures r.1 - atHand == |r.0| - |illusts|
    ensures forall k :: |illusts| <= k < |r.0| ==> r.0[k].totalBookmarks >= popu
    ensures r.2 ==> r.1 == quantity
    decreases |page|
  {
    if page == [] then (illusts, atHand, false)
    else
      var kept := page[0].totalBookmarks >= popu;
      var illusts' := if kept then illusts + [page[0]] else illusts;
      var atHand' := if kept then atHand + 1 else atHand;
      if atHand' == quantity then (illusts', atHand', true)
      else ScanAsWritten(page[1..], quantity, popu, illusts', atHand')
  }

  /** One pass of the `while not quit` body as written. */
  function TagPassAsWritten(pages: seq<seq<Illust>>, quantity: int, popu: int, st: TagState): (r: TagState)
    ensures r.curPage == st.curPage + 1
    ensures |st.illusts| <= |r.illusts| && r.illusts[..|st.illusts|] == st.illusts
    ensures r.atHand - st.atHand == |r.illusts| - |st.illusts|
    ensures !r.quit ==> |PageAt(pages, st.curPage)| >= Min(quantity - st.atHand, PageQuantity)
  {
    var page := PageAt(pages, st.curPage);
    var short := |page| < Min(quantity - st.atHand, PageQuantity);
    var scan := ScanAsWritten(page, quantity, popu, st.illusts, st.atHand);
    TagState(scan.0, scan.1, st.curPage + 1, short || scan.2)
  }

  /** The state after at most `rounds` passes, stopping early once `quit` is set. */
  function TagRunAsWritten(pages: seq<seq<Illust>>, quantity: int, popu: int, st: TagState, rounds: nat): (r: TagState)
    ensures st.curPage <= r.curPage <= st.curPage + rounds
    ensures !r.quit ==> r.curPage == st.curPage + rounds
    ensures st.quit ==> r == st
    ensures |st.illusts| <= |r.illusts| && r.illusts[..|st.illusts|] == st.illusts
    decreases rounds
  {
    if rounds == 0 || st.quit then st
    else TagRunAsWritten(pages, quantity, popu, TagPassAsWritten(pages, quantity, popu, st), rounds - 1)
  }

  /** Every result record has at least `popu` bookmarks (always so for `popu == 0`). */
  predicate AllMeetFloor(pages: seq<seq<Illust>>, popu: int)
  {
    forall p, k :: 0 <= p < |pages| && 0 <= k < |pages[p]| ==> pages[p][k].totalBookmarks >= popu
  }

  /**
   * With a negative quantity, or a quantity of 0 when every record is kept,
   * scanning a page never meets the quota.
   */
  lemma {:induction false} ScanNeverMeetsUnreachableQuota(page: seq<Illust>, quantity: int, popu: int, illusts: seq<Illust>, atHand: int)
    requires atHand >= 0
    requires quantity < 0 || (quantity == 0 && forall k :: 0 <= k < |page| ==> page[k].totalBookmarks >= popu)
    ensures !ScanAsWritten(page, quantity, popu, illusts, atHand).2
    ensures ScanAsWritten(page, quantity, popu, illusts, atHand).1 >= atHand
    decreases |page|
  {
    if page != [] {
      var kept := page[0].totalBookmarks >= popu;
      var illusts' := if kept then illusts + [page[0]] else illusts;
      var atHand' := if kept then atHand + 1 else atHand;
      assert forall k :: 0 <= k < |page[1..]| ==> page[1..][k] == page[k + 1];
      ScanNeverMeetsUnreachableQuota(page[1..], quantity, popu, illusts', atHand');
    }
  }

  /**
   * As written, `search_by_tags` never leaves its loop for a negative
   * quantity, nor for a quantity of 0 when every record meets the floor, as
   * with `tag miku 0` (popularity floor 0, bookmark counts never negative):
   * no number of passes sets `quit`.
   */
  lemma {:induction false} TagZeroQuantityNeverQuits(pages: seq<seq<Illust>>, quantity: int, popu: int, st: TagState, rounds: nat)
    requires st.atHand >= 0 && !st.quit
    requires quantity < 0 || (quantity == 0 && AllMeetFloor(pages, popu))
    ensures !TagRunAsWritten(pages, quantity, popu, st, rounds).quit
    decreases rounds
  {
    if rounds > 0 {
      var page := PageAt(pages, st.curPage);
      ScanNeverMeetsUnreachableQuota(page, quantity, popu, st.illusts, st.atHand);
      var next := TagPassAsWritten(pages, quantity, popu, st);
      assert !next.quit;
      TagZeroQuantityNeverQuits(pages, quantity, popu, next, rounds - 1);
    }
  }

  /**
   * As written, a quantity of 0 does end the loop when the first record
   * seen is below the floor, as with `tag miku 0 100` and a first record
   * with fewer than 100 bookmarks: `at_hand` stays 0, equal to the quantity.
   */
  lemma TagZeroQuantityQuitsOnLowRecord(pages: seq<seq<Illust>>, popu: int)
    requires |pages| > 0 && |pages[0]| > 0 && pages[0][0].totalBookmarks < popu
    ensures TagPassAsWritten(pages, 0, popu, TagState([], 0, 0, false)).quit
  {
  }

  /**
   * While the quota is not yet met, the inner loop as written leaves the
   * first `quantity` of the earlier records followed by the page's popular
   * ones, and stops early exactly when those reach the quota.
   */
  lemma {:induction false} ScanAsWrittenTakes(page: seq<Illust>, quantity: int, popu: int, illusts: seq<Illust>, atHand: int)
    requires atHand == |illusts| < quantity
    ensures ScanAsWritten(page, quantity, popu, illusts, atHand).0 == Take(illusts + Popular(page, popu), quantity)
    ensures ScanAsWritten(page, quantity, popu, illusts, atHand).2 <==> |illusts| + |Popular(page, popu)| >= quantity
    decreases |page|
  {
    if page == [] {
      assert illusts + [] == illusts;
    } else {
      var x := page[0];
      var kept := x.totalBookmarks >= popu;
      var illusts' := if kept then illusts + [x] else illusts;
      PopularHead(page, popu);
      assert illusts + Popular(page, popu) == illusts' + Popular(page[1..], popu);
      if |illusts'| == quantity {
        assert (illusts' + Popular(page[1..], popu))[..quantity] == illusts';
      } else {
        ScanAsWrittenTakes(page[1..], quantity, popu, illusts', |illusts'|);
      }
    }
  }

  /** The first record of `s` is kept or not, ahead of the popular records of the rest. */
  lemma PopularHead(s: seq<Illust>, popu: int)
    requires s != []
    ensures Popular(s, popu) == (if s[0].totalBookmarks >= popu then [s[0]] else []) + Popular(s[1..], popu)
  {
    assert s == [s[0]] + s[1..];
    PopularAppend([s[0]], s[1..], popu);
    assert [s[0]][..0] == [];
  }

  /** The as-written state once the pages before `k` have been scanned without the search ending. */
  function StateAfter(pages: seq<seq<Illust>>, popu: int, k: nat): TagState
  {
    var kept := Popular(Scanned(pages, k), popu);
    TagState(kept, |kept|, k, false)
  }

  /** One as-written pass from such a state scans page `k` and sets `quit` exactly when page `k` ends the search. */
  lemma PassAsWrittenStep(pages: seq<seq<Illust>>, quantity: int, popu: int, k: nat)
    requires |Popular(Scanned(pages, k), popu)| < quantity
    ensures TagPassAsWritten(pages, quantity, popu, StateAfter(pages, popu, k)).curPage == k + 1
    ensures TagPassAsWritten(pages, quantity, popu, StateAfter(pages, popu, k)).illusts
         == Take(Popular(Scanned(pages, k + 1), popu), quantity)
    ensures TagPassAsWritten(pages, quantity, popu, StateAfter(pages, popu, k)).quit
        <==> Stops(pages, quantity, popu, k)
  {
    var before := Popular(Scanned(pages, k), popu);
    var page := PageAt(pages, k);
    ScanAsWrittenTakes(page, quantity, popu, before, |before|);
    PopularAppend(Scanned(pages, k), page, popu);
  }

  /** A page that does not end the search leads to the state after the next page. */
  lemma PassAsWrittenContinues(pages: seq<seq<Illust>>, quantity: int, popu: int, k: nat)
    requires |Popular(Scanned(pages, k), popu)| < quantity
    requires !Stops(pages, quantity, popu, k)
    ensures TagPassAsWritten(pages, quantity, popu, StateAfter(pages, popu, k)) == StateAfter(pages, popu, k + 1)
    ensures |Popular(Scanned(pages, k + 1), popu)| < quantity
  {
    PassAsWrittenStep(pages, quantity, popu, k);
  }

  /** A run of passes that has not quit starts with one more pass. */
  lemma RunAsWrittenUnfold(pages: seq<seq<Illust>>, quantity: int, popu: int, st: TagState, rounds: nat)
    requires rounds > 0 && !st.quit
    ensures TagRunAsWritten(pages, quantity, popu, st, rounds)
         == TagRunAsWritten(pages, quantity, popu, TagPassAsWritten(pages, quantity, popu, st), rounds - 1)
  {
  }

  /** No `p` from `k` up to `n - 2` satisfies `stop`. */
  predicate NoneFrom(stop: nat -> bool, k: nat, n: nat)
    decreases n - k
  {
    k + 1 >= n || (!stop(k) && NoneFrom(stop, k + 1, n))
  }

  /** The quantified form of `NoneFrom` gives the recursive one. */
  lemma {:induction false} NoneFromAll(stop: nat -> bool, k: nat, n: nat)
    requires forall p :: k <= p < n - 1 ==> !stop(p)
    ensures NoneFrom(stop, k, n)
    decreases n - k
  {
    if k + 1 < n {
      NoneFromAll(stop, k + 1, n);
    }
  }

  /** None of the pages from `k` up to `n - 2` ends the search. */
  predicate NoStopFrom(pages: seq<seq<Illust>>, quantity: int, popu: int, k: nat, n: nat)
  {
    NoneFrom((p: nat) => Stops(pages, quantity, popu, p), k, n)
  }

  /** From page `k` on, the remaining `rounds` as-written passes end after page `n - 1` with the specified records. */
  lemma {:induction false} RunAsWrittenFrom(pages: seq<seq<Illust>>, quantity: int, popu: int, n: nat, k: nat, rounds: nat)
    requires k + rounds == n && rounds > 0
    requires NoStopFrom(pages, quantity, popu, k, n) && Stops(pages, quantity, popu, n - 1)
    requires |Popular(Scanned(pages, k), popu)| < quantity
    ensures TagRunAsWritten(pages, quantity, popu, StateAfter(pages, popu, k), rounds).quit
    ensures TagRunAsWritten(pages, quantity, popu, StateAfter(pages, popu, k), rounds).curPage == n
    ensures TagRunAsWritten(pages, quantity, popu, StateAfter(pages, popu, k), rounds).illusts
         == Take(Popular(Scanned(pages, n), popu), quantity)
    decreases rounds
  {
    if rounds > 1 {
      RunAsWrittenFrom(pages, quantity, popu, n, k + 1, rounds - 1);
      RunAsWrittenShift(pages, quantity, popu, k, rounds);
    } else {
      PassAsWrittenEnds(pages, quantity, popu, k);
    }
  }

  /** After a page that does not end the search, the run from page `k` is the run from page `k + 1`, one pass shorter. */
  lemma RunAsWrittenShift(pages: seq<seq<Illust>>, quantity: int, popu: int, k: nat, rounds: nat)
    requires !Stops(pages, quantity, popu, k) && rounds > 1
    requires |Popular(Scanned(pages, k), popu)| < quantity
    ensures TagRunAsWritten(pages, quantity, popu, StateAfter(pages, popu, k), rounds)
         == TagRunAsWritten(pages, quantity, popu, StateAfter(pages, popu, k + 1), rounds - 1)
  {
    RunAsWrittenUnfold(pages, quantity, popu, StateAfter(pages, popu, k), rounds);
    PassAsWrittenContinues(pages, quantity, popu, k);
  }

  /** A page that ends the search ends the as-written run after one more pass. */
  lemma PassAsWrittenEnds(pages: seq<seq<Illust>>, quantity: int, popu: int, k: nat)
    requires |Popular(Scanned(pages, k), popu)| < quantity
    requires Stops(pages, quantity, popu, k)
    ensures TagRunAsWritten(pages, quantity, popu, StateAfter(pages, popu, k), 1).quit
    ensures TagRunAsWritten(pages, quantity, popu, StateAfter(pages, popu, k), 1).curPage == k + 1
    ensures TagRunAsWritten(pages, quantity, popu, StateAfter(pages, popu, k), 1).illusts
         == Take(Popular(Scanned(pages, k + 1), popu), quantity)
  {
    RunAsWrittenUnfold(pages, quantity, popu, StateAfter(pages, popu, k), 1);
    PassAsWrittenStep(pages, quantity, popu, k);
  }

  /**
   * For a quantity of at least 1 the loop as written agrees with the
   * specification the tag loop is proved against: it quits after exactly
   * the `n` pages `FirstStopAt` names, keeping the first `quantity` popular
   * records of those pages.
   */
  lemma RunAsWrittenAgrees(pages: seq<seq<Illust>>, quantity: int, popu: int, n: nat)
    requires quantity >= 1 && FirstStopAt(pages, quantity, popu, n)
    ensures TagRunAsWritten(pages, quantity, popu, TagState([], 0, 0, false), n).quit
    ensures TagRunAsWritten(pages, quantity, popu, TagState([], 0, 0, false), n).curPage == n
    ensures TagRunAsWritten(pages, quantity, popu, TagState([], 0, 0, false), n).illusts
         == Take(Popular(Scanned(pages, n), popu), quantity)
  {
    assert StateAfter(pages, popu, 0) == TagState([], 0, 0, false);
    NoneFromAll((p: nat) => Stops(pages, quantity, popu, p), 0, n);
    RunAsWrittenFrom(pages, quantity, popu, n, 0, n);
  }
}
