/** Quota arithmetic: how many 30-item pages a requested quantity needs. */
module Quota {

  /** Items the remote listing endpoints return per page (`page_quantity`). */
  const PageQuantity: int := 30

  /**
   * `page * page_quantity`: how many items the pages before page `p` hold.
   * The page size is written as a literal here and in `GetPageNum`, so that
   * the arithmetic stays linear.
   */
  function PageOffset(p: nat): nat { p * 30 }

  /** Largest quantity `get_page_num` accepts. */
  const MaxQuantity: int := 100

  function Min(a: int, b: int): int { if a <= b then a else b }

  /**
   * `get_page_num`: 0 (after printing an error) for a quantity below 1 or
   * above 100, otherwise the least number of pages holding `quantity` items.
   */
  function GetPageNum(quantity: int): (n: nat)
    ensures n == 0 <==> quantity < 1 || quantity > MaxQuantity
    ensures n != 0 ==> (n - 1) * 30 < quantity <= n * 30
    ensures n <= 4
  {
    if quantity < 1 then 0
    else if quantity > MaxQuantity then 0
    else (quantity - 1) / 30 + 1
  }

  /** The page count is exactly the ceiling of `quantity / 30`. */
  lemma PageNumIsCeiling(quantity: int, m: int)
    requires 1 <= quantity <= MaxQuantity
    requires (m - 1) * 30 < quantity <= m * 30
    ensures m == GetPageNum(quantity)
  {
  }

  lemma PageNumExamples()
    ensures GetPageNum(0) == 0 && GetPageNum(101) == 0 && GetPageNum(-3) == 0
    ensures GetPageNum(1) == 1 && GetPageNum(30) == 1 && GetPageNum(31) == 2
    ensures GetPageNum(60) == 2 && GetPageNum(61) == 3 && GetPageNum(100) == 4
  {
  }

  /** Every page the loops visit still has at least one item of quota left. */
  lemma RemainingQuotaPositive(quantity: int, page: nat)
    requires page < GetPageNum(quantity)
    ensures quantity - PageOffset(page) >= 1
  {
  }
}
