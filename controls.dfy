/**
 * Two small computations of the quiz page (src/App.tsx): the Previous and Next
 * page buttons, which clamp the page number, and the time estimate shown while
 * questions are generated.
 */
module Controls {
  import opened Basics
  import opened Text

  /** The page the Previous button moves to: one back, but never below 1. */
  function PreviousPage(page: int): (r: int)
    ensures r >= 1
    ensures page > 1 ==> r == page - 1
    ensures page <= 1 ==> r == 1
  {
    Max(1, page - 1)
  }

  /**
   * The page the Next button moves to: one on, but never past the page count,
   * which the page keeps as text and reads with `parseInt`; unreadable text
   * gives NaN (`None`).
   */
  function NextPage(page: int, numberOfPages: string): (r: Option<int>)
    ensures r.Some? <==> ParseInt(numberOfPages).Some?
    ensures r.Some? ==> r.value <= ParseInt(numberOfPages).value && r.value <= page + 1
    ensures r.Some? ==> r.value == page + 1 || r.value == ParseInt(numberOfPages).value
  {
    match ParseInt(numberOfPages)
    case None => None
    case Some(pages) => Some(Min(pages, page + 1))
  }

  /** Both buttons keep a page inside `[1, pages]`, and each moves by at most one. */
  lemma PagesStayInRange(page: int, numberOfPages: string, pages: int)
    requires ParseInt(numberOfPages) == Some(pages) && 1 <= page <= pages
    ensures 1 <= PreviousPage(page) <= pages
    ensures PreviousPage(page) == (if page == 1 then 1 else page - 1)
    ensures NextPage(page, numberOfPages) == Some(if page == pages then pages else page + 1)
    ensures 1 <= NextPage(page, numberOfPages).value <= pages
  {
  }

  /** From any page, Previous never goes below 1 and Next never past the count. */
  lemma PagesClamp(page: int, numberOfPages: string)
    ensures PreviousPage(page) >= 1
    ensures ParseInt(numberOfPages).Some? ==>
      NextPage(page, numberOfPages).Some? && NextPage(page, numberOfPages).value <= ParseInt(numberOfPages).value
    ensures ParseInt(numberOfPages).None? ==> NextPage(page, numberOfPages).None?
  {
  }

  const BaseMs := 1500
  const PerQuestionMs := 450
  const CapMs := 45000

  /** `estimateGenerationMs`: a fixed overhead plus a cost per question, capped at 45 seconds. */
  function EstimateGenerationMs(count: int): (r: int)
    ensures r <= CapMs && r <= BaseMs + PerQuestionMs * count
    ensures r == CapMs || r == BaseMs + PerQuestionMs * count
  {
    Min(BaseMs + PerQuestionMs * count, CapMs)
  }

  /**
   * The estimate never exceeds 45000 ms, grows with the count, and reaches
   * the cap exactly from 97 questions on.
   */
  lemma EstimateCapped(count: int)
    ensures EstimateGenerationMs(count) <= 45000
    ensures EstimateGenerationMs(count) == 45000 <==> count >= 97
    ensures count < 97 ==> EstimateGenerationMs(count) == 1500 + 450 * count
  {
  }

  lemma EstimateMonotone(m: int, n: int)
    requires m <= n
    ensures EstimateGenerationMs(m) <= EstimateGenerationMs(n)
  {
  }
}
