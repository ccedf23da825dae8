// The paging arithmetic every list handler repeats:
//   page  = parseInt(req.query.page, 10)  || 1
//   limit = parseInt(req.query.limit, 10) || 10
//   skip  = (page - 1) * limit
//   totalPages = Math.ceil(total / limit)
// A query parameter is `None` when it is missing or parseInt gives NaN.
module Paging {
  import opened Common

  datatype PageInfo = PageInfo(page: int, limit: int, skip: int, totalPages: int, totalResults: nat)

  /** `parseInt(q, 10) || fallback`: NaN and 0 are falsy. */
  function ParamOr(q: Option<int>, fallback: int): (r: int)
    ensures (q.None? || q.value == 0) ==> r == fallback
    ensures q.Some? && q.value != 0 ==> r == q.value
    ensures fallback != 0 ==> r != 0
  {
    if q.None? || q.value == 0 then fallback else q.value
  }

  /** Math.ceil(total / limit) for a non-zero integer limit. */
  function CeilDiv(total: nat, limit: int): (r: int)
    requires limit != 0
  {
    if limit > 0 then (total + limit - 1) / limit else -(total / -limit)
  }

  /** CeilDiv is the ceiling: the least r with r >= total / limit. For a
      negative limit both sides of the inequalities swap. */
  lemma CeilDivIsCeiling(total: nat, limit: int)
    requires limit != 0
    ensures limit > 0 ==> limit * (CeilDiv(total, limit) - 1) < total <= limit * CeilDiv(total, limit)
    ensures limit < 0 ==> limit * CeilDiv(total, limit) <= total < limit * (CeilDiv(total, limit) - 1)
  {
    var r := CeilDiv(total, limit);
    if limit > 0 {
      var n := total + limit - 1;
      assert n == limit * (n / limit) + n % limit;
      assert 0 <= n % limit < limit;
      assert limit * r <= n < limit * r + limit;
    } else {
      var m := -limit;
      assert total == m * (total / m) + total % m;
      assert 0 <= total % m < m;
      assert limit * r == m * (total / m);
    }
  }

  /** With a positive limit the page count is never negative, and it is
      zero exactly when there are no results. */
  lemma PagesCoverResults(total: nat, limit: int)
    requires limit > 0
    ensures CeilDiv(total, limit) >= 0
    ensures total == 0 <==> CeilDiv(total, limit) == 0
  {
    CeilDivIsCeiling(total, limit);
  }

  /** MongoDB refuses a negative `skip`: the query throws and every list
      handler's catch block answers 500 "Server error". */
  predicate SkipRefused(pageQ: Option<int>, limitQ: Option<int>) {
    (ParamOr(pageQ, 1) - 1) * ParamOr(limitQ, 10) < 0
  }

  /** MongoDB also refuses a `$regex` filter whose text does not compile as
      a regular expression (`q=(`, `author=*`), with the same 500 from the
      catch block. `validPattern` stands for the server's pattern compiler;
      a falsy parameter sets no filter and cannot be refused. */
  predicate PatternRefused(param: Option<string>, validPattern: string -> bool) {
    TruthyStr(param) && !validPattern(param.value)
  }

  /** The skip is negative exactly when a page before the first is asked
      for with a positive limit, or a later page with a negative limit. */
  lemma SkipRefusedIff(pageQ: Option<int>, limitQ: Option<int>)
    ensures var page, limit := ParamOr(pageQ, 1), ParamOr(limitQ, 10);
            SkipRefused(pageQ, limitQ) <==> (page < 1 && limit > 0) || (page > 1 && limit < 0)
  {
    var page, limit := ParamOr(pageQ, 1), ParamOr(limitQ, 10);
    if page < 1 && limit > 0 {
      assert (page - 1) * limit <= -limit;
    } else if page > 1 && limit < 0 {
      assert (page - 1) * limit <= limit;
    } else if page == 1 {
      assert (page - 1) * limit == 0;
    } else if page < 1 {
      assert (page - 1) * limit >= -limit;
    } else {
      assert (page - 1) * limit >= limit;
    }
  }

  /** The page metadata of a list response. */
  function Paginate(pageQ: Option<int>, limitQ: Option<int>, total: nat): (p: PageInfo)
    ensures p.page == ParamOr(pageQ, 1) && p.limit == ParamOr(limitQ, 10)
    ensures p.skip == (p.page - 1) * p.limit
    ensures p.skip < 0 <==> SkipRefused(pageQ, limitQ)
    ensures p.limit != 0 && p.totalPages == CeilDiv(total, p.limit)
    ensures p.totalResults == total
  {
    var page := ParamOr(pageQ, 1);
    var limit := ParamOr(limitQ, 10);
    PageInfo(page, limit, (page - 1) * limit, CeilDiv(total, limit), total)
  }

  /** Without query parameters: page 1 of 10, nothing skipped, and the
      query is not refused. */
  lemma PaginateDefaults(total: nat)
    ensures !SkipRefused(None, None)
    ensures var p := Paginate(None, None, total);
            p.page == 1 && p.limit == 10 && p.skip == 0
            && 10 * (p.totalPages - 1) < total <= 10 * p.totalPages
  {
    CeilDivIsCeiling(total, 10);
  }
}
