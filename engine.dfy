/**
 * Acquisition engine for the by-id, by-member and by-rank modes. The network
 * is a given sequence of pages: `PageAt(pages, p)` is the `illusts` list the
 * API returns for page `p`, and every page past the end is empty.
 */
module Engine {
  import opened Wrappers
  import opened Text
  import opened Quota
  import opened Resolver
  import opened RankMode

  /** Why a round ends before any page is fetched. */
  datatype Rejection =
    | IllegalId            // the id is not a run of digits
    | NoSuchIllustrator    // the member record is empty
    | IllegalMode          // the rank mode is not in `rank_modes`
    | TooFewRequested      // quantity below 1
    | TooManyRequested     // quantity above 100

  /** The fixed parameters of the requests a round sends. */
  datatype Query =
    | IllustQuery(illustId: string)
    | MemberQuery(memberId: string)
    | RankQuery(mode: string, date: string)
    | SearchQuery(word: string)

  /**
   * The outcome of one round: either it is rejected, or it finishes with the
   * accepted records, the download pairs handed to `save` (an empty list is
   * reported as "No image found"), the number of page requests sent, and
   * whether the "only found N illustration(s)" warning is given.
   */
  datatype Round =
    | Rejected(reason: Rejection)
    | Finished(query: Query, illusts: seq<Illust>, pairs: seq<IoPair>, pageRequests: nat, partial: bool)

  function PageAt(pages: seq<seq<Illust>>, p: nat): seq<Illust>
  {
    if p < |pages| then pages[p] else []
  }

  function QuantityRejection(quantity: int): (r: Rejection)
    requires GetPageNum(quantity) == 0
    ensures r == TooFewRequested <==> quantity < 1
    ensures r == TooManyRequested <==> quantity > MaxQuantity
  {
    if quantity < 1 then TooFewRequested else TooManyRequested
  }

  /**
   * What the member and rank loops accumulate from page `p` on: from every
   * page before the first empty one, and before page `get_page_num(quantity)`,
   * its first `min(quantity - p * 30, len(page))` items, in page order.
   */
  function Gathered(pages: seq<seq<Illust>>, quantity: int, p: nat): seq<Illust>
    requires 1 <= quantity <= MaxQuantity
    decreases GetPageNum(quantity) - p
  {
    if p >= GetPageNum(quantity) || PageAt(pages, p) == [] then []
    else
      var page := PageAt(pages, p);
      page[..Min(quantity - PageOffset(p), |page|)] + Gathered(pages, quantity, p + 1)
  }

  /**
   * The loop sent `n` page requests: it stopped after the first empty page, or
   * after page `get_page_num(quantity) - 1`, whichever came first.
   */
  predicate PagedStopAt(pages: seq<seq<Illust>>, quantity: int, n: nat)
  {
    && 1 <= n <= GetPageNum(quantity)
    && (forall p :: 0 <= p < n - 1 ==> PageAt(pages, p) != [])
    && (n < GetPageNum(quantity) ==> PageAt(pages, n - 1) == [])
  }

  /** The `for page in range(page_num)` loop shared by `search_by_member` and `search_by_rank`. */
  method CollectPages(pages: seq<seq<Illust>>, quantity: int) returns (illusts: seq<Illust>, requests: nat)
    requires 1 <= quantity <= MaxQuantity
    ensures illusts == Gathered(pages, quantity, 0)
    ensures PagedStopAt(pages, quantity, requests)
  {
    var pageNum := GetPageNum(quantity);
    illusts := [];
    requests := 0;
    for page := 0 to pageNum
      invariant requests == page
      invariant illusts + Gathered(pages, quantity, page) == Gathered(pages, quantity, 0)
      invariant forall p :: 0 <= p < page ==> PageAt(pages, p) != []
    {
      var curPageIllusts := PageAt(pages, page);
      requests := requests + 1;
      if |curPageIllusts| == 0 {
        GatheredAtEmptyPage(pages, quantity, page);
        assert illusts + [] == illusts;
        StopsAfter(pages, quantity, page + 1);
        return;
      }
      RemainingQuotaPositive(quantity, page);
      var desireLen := Min(quantity - PageOffset(page), |curPageIllusts|);
      GatheredStep(pages, quantity, page);
      illusts := illusts + curPageIllusts[..desireLen];
    }
    GatheredAtEmptyPage(pages, quantity, pageNum);
    assert illusts + [] == illusts;
    StopsAfter(pages, quantity, pageNum);
  }

  /** The stop rule holds once every page before the last one sent was non-empty and the last one was empty or the final one. */
  lemma StopsAfter(pages: seq<seq<Illust>>, quantity: int, n: nat)
    requires 1 <= n <= GetPageNum(quantity)
    requires forall p :: 0 <= p < n - 1 ==> PageAt(pages, p) != []
    requires n < GetPageNum(quantity) ==> PageAt(pages, n - 1) == []
    ensures PagedStopAt(pages, quantity, n)
  {
  }

  /** A page the loop takes items from contributes its specified prefix. */
  lemma GatheredStep(pages: seq<seq<Illust>>, quantity: int, p: nat)
    requires 1 <= quantity <= MaxQuantity
    requires p < GetPageNum(quantity) && PageAt(pages, p) != []
    ensures Gathered(pages, quantity, p)
         == PageAt(pages, p)[..Min(quantity - PageOffset(p), |PageAt(pages, p)|)] + Gathered(pages, quantity, p + 1)
  {
  }

  /** Nothing is gathered from an empty page or from the page after the last one the quota needs. */
  lemma GatheredAtEmptyPage(pages: seq<seq<Illust>>, quantity: int, p: nat)
    requires 1 <= quantity <= MaxQuantity
    requires p >= GetPageNum(quantity) || PageAt(pages, p) == []
    ensures Gathered(pages, quantity, p) == []
  {
  }

  /** When every page holds at most 30 items, a round never accepts more than it asked for. */
  lemma {:induction false} GatheredWithinQuota(pages: seq<seq<Illust>>, quantity: int, p: nat)
    requires 1 <= quantity <= MaxQuantity
    requires forall k :: 0 <= k < |pages| ==> |pages[k]| <= PageQuantity
    requires p <= GetPageNum(quantity)
    ensures |Gathered(pages, quantity, p)| <= if p < GetPageNum(quantity) then quantity - PageOffset(p) else 0
    decreases GetPageNum(quantity) - p
  {
    if p < GetPageNum(quantity) && PageAt(pages, p) != [] {
      GatheredWithinQuota(pages, quantity, p + 1);
    }
  }

  /** When every page the loop may visit is a full page of 30, it accepts exactly `quantity` items. */
  lemma {:induction false} GatheredFillsQuota(pages: seq<seq<Illust>>, quantity: int, p: nat)
    requires 1 <= quantity <= MaxQuantity
    requires forall k :: 0 <= k < GetPageNum(quantity) ==> |PageAt(pages, k)| == PageQuantity
    requires p <= GetPageNum(quantity)
    ensures |Gathered(pages, quantity, p)| == if p < GetPageNum(quantity) then quantity - PageOffset(p) else 0
    decreases GetPageNum(quantity) - p
  {
    if p < GetPageNum(quantity) {
      GatheredFillsQuota(pages, quantity, p + 1);
    }
  }

  /** Pages past the first empty one are never read. */
  lemma {:induction false} GatheredStopsAtEmptyPage(pages: seq<seq<Illust>>, more: seq<seq<Illust>>, quantity: int, p: nat)
    requires 1 <= quantity <= MaxQuantity
    requires p < |pages| && pages[p] == []
    ensures Gathered(pages + more, quantity, 0) == Gathered(pages, quantity, 0)
  {
    GatheredAgrees(pages, pages + more, quantity, 0, p);
  }

  lemma {:induction false} GatheredAgrees(a: seq<seq<Illust>>, b: seq<seq<Illust>>, quantity: int, q: nat, p: nat)
    requires 1 <= quantity <= MaxQuantity
    requires q <= p < |a| && a[p] == [] && |a| <= |b|
    requires forall k :: 0 <= k <= p ==> a[k] == b[k]
    ensures Gathered(a, quantity, q) == Gathered(b, quantity, q)
    decreases p - q
  {
    if q < p {
      GatheredAgrees(a, b, quantity, q + 1, p);
    }
  }

  /** `search_by_id`: an id that is not all digits is refused; otherwise the record's pairs are saved. */
  function SearchById(id: string, record: Option<Illust>): (r: Round)
    ensures r.Rejected? <==> !IsDigits(id)
    ensures r.Rejected? ==> r.reason == IllegalId
    ensures r.Finished? ==> r.query == IllustQuery(id) && r.pairs == GetIoPairs(record) && r.pageRequests == 0 && !r.partial
  {
    if !IsDigits(id) then Rejected(IllegalId)
    else
      var illusts := if record.Some? then [record.value] else [];
      Finished(IllustQuery(id), illusts, GetIoPairs(record), 0, false)
  }

  /**
   * `search_by_member`: refuses a malformed id, then a member whose record is
   * empty (`memberFound` is false), then a quantity outside [1, 100]; otherwise
   * pages through the member's works and warns when fewer than `quantity`
   * were found.
   */
  method SearchByMember(id: string, quantity: int, memberFound: bool, pages: seq<seq<Illust>>) returns (r: Round)
    ensures !IsDigits(id) ==> r == Rejected(IllegalId)
    ensures IsDigits(id) && !memberFound ==> r == Rejected(NoSuchIllustrator)
    ensures IsDigits(id) && memberFound && GetPageNum(quantity) == 0 ==> r == Rejected(QuantityRejection(quantity))
    ensures IsDigits(id) && memberFound && GetPageNum(quantity) != 0 ==>
      && r.Finished?
      && r.query == MemberQuery(id)
      && r.illusts == Gathered(pages, quantity, 0)
      && PagedStopAt(pages, quantity, r.pageRequests)
      && r.pairs == AllIoPairs(r.illusts)
      && r.partial == (|r.illusts| < quantity)
  {
    if !IsDigits(id) {
      return Rejected(IllegalId);
    }
    if !memberFound {
      return Rejected(NoSuchIllustrator);
    }
    var pageNum := GetPageNum(quantity);
    if pageNum == 0 {
      return Rejected(QuantityRejection(quantity));
    }
    var illusts, requests := CollectPages(pages, quantity);
    r := Finished(MemberQuery(id), illusts, AllIoPairs(illusts), requests, |illusts| < quantity);
  }

  /**
   * `search_by_rank`: refuses a mode outside `rank_modes`, then a quantity
   * outside [1, 100]; otherwise pages through the ranking of `date` (two days
   * before the current day, supplied by the caller) under the API's token for
   * the mode. This mode gives no partial-result warning.
   */
  method SearchByRank(mode: string, quantity: int, date: string, pages: seq<seq<Illust>>) returns (r: Round)
    ensures ParseRankMode(mode).None? ==> r == Rejected(IllegalMode)
    ensures ParseRankMode(mode).Some? && GetPageNum(quantity) == 0 ==> r == Rejected(QuantityRejection(quantity))
    ensures ParseRankMode(mode).Some? && GetPageNum(quantity) != 0 ==>
      && r.Finished?
      && r.query == RankQuery(ApiToken(ParseRankMode(mode).value), date)
      && r.illusts == Gathered(pages, quantity, 0)
      && PagedStopAt(pages, quantity, r.pageRequests)
      && r.pairs == AllIoPairs(r.illusts)
      && !r.partial
  {
    var m := ParseRankMode(mode);
    if m.None? {
      return Rejected(IllegalMode);
    }
    var token := ApiToken(m.value);
    var pageNum := GetPageNum(quantity);
    if pageNum == 0 {
      return Rejected(QuantityRejection(quantity));
    }
    var illusts, requests := CollectPages(pages, quantity);
    r := Finished(RankQuery(token, date), illusts, AllIoPairs(illusts), requests, false);
  }
}
