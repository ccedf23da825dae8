// Shared vocabulary of the bookstore model: identifiers, optional values,
// handler outcomes, JavaScript truthiness and the string helpers the
// controllers and schemas rely on (trim, lower-casing, join, filter).
module Common {

  type UserId = nat
  type BookId = nat
  type ReviewId = nat
  type OrderId = nat

  datatype Option<+T> = None | Some(value: T)

  /** The response of a request handler: a success value, or an HTTP
      status code with the message the handler sends back. */
  datatype Outcome<+T> = Ok(value: T) | Err(code: nat, message: string)

  // ---------------------------------------------------------------------
  // JavaScript truthiness of optional request fields. `None` stands for
  // `undefined`; the empty string and the number 0 are the other falsy
  // values that matter for the handlers.

  predicate TruthyStr(o: Option<string>) { o.Some? && o.value != "" }
  predicate TruthyInt(o: Option<int>) { o.Some? && o.value != 0 }
  predicate TruthyReal(o: Option<real>) { o.Some? && o.value != 0.0 }

  /** `o || fallback` for a string field. */
  function OrStr(o: Option<string>, fallback: Option<string>): (r: Option<string>)
    ensures TruthyStr(o) ==> r == o
    ensures !TruthyStr(o) ==> r == fallback
  {
    if TruthyStr(o) then o else fallback
  }

  /** `o || fallback` for an integer field. */
  function OrInt(o: Option<int>, fallback: Option<int>): (r: Option<int>)
    ensures TruthyInt(o) ==> r == o
    ensures !TruthyInt(o) ==> r == fallback
  {
    if TruthyInt(o) then o else fallback
  }

  /** `o || fallback` for a number field. */
  function OrReal(o: Option<real>, fallback: real): (r: real)
    ensures TruthyReal(o) ==> r == o.value
    ensures !TruthyReal(o) ==> r == fallback
  {
    if TruthyReal(o) then o.value else fallback
  }

  // ---------------------------------------------------------------------
  // String.prototype.trim over the ASCII white-space characters.

  predicate IsSpace(c: char) {
    c == ' ' || c == '\t' || c == '\n' || c == '\r' || c == '\U{000B}' || c == '\U{000C}'
  }

  function TrimStart(s: string): (r: string)
    ensures |r| <= |s| && r == s[|s| - |r|..]
    ensures r != [] ==> !IsSpace(r[0])
    ensures forall i :: 0 <= i < |s| - |r| ==> IsSpace(s[i])
  {
    if s != [] && IsSpace(s[0]) then TrimStart(s[1..]) else s
  }

  function TrimEnd(s: string): (r: string)
    ensures |r| <= |s| && r == s[..|r|]
    ensures r != [] ==> !IsSpace(r[|r| - 1])
    ensures forall i :: |r| <= i < |s| ==> IsSpace(s[i])
  {
    if s != [] && IsSpace(s[|s| - 1]) then TrimEnd(s[..|s| - 1]) else s
  }

  /** Neither end of the string is white space. */
  predicate IsTrimmed(s: string) {
    s != [] ==> !IsSpace(s[0]) && !IsSpace(s[|s| - 1])
  }

  /** Removes leading and trailing white space. */
  function Trim(s: string): (r: string)
    ensures |r| <= |s|
    ensures IsTrimmed(r)
  {
    TrimEnd(TrimStart(s))
  }

  /** The trimmed string is a contiguous piece of the input, and what was cut
      off on either side is white space. */
  lemma TrimIsSlice(s: string)
    ensures exists a, b ::
              && 0 <= a <= b <= |s| && Trim(s) == s[a..b]
              && (forall i :: 0 <= i < a ==> IsSpace(s[i]))
              && (forall i :: b <= i < |s| ==> IsSpace(s[i]))
  {
    var a := |s| - |TrimStart(s)|;
    var b := a + |Trim(s)|;
    TrimBounds(s, a, b);
  }

  /** TrimIsSlice with the two cut points named. */
  lemma TrimBounds(s: string, a: int, b: int)
    requires a == |s| - |TrimStart(s)| && b == a + |Trim(s)|
    ensures 0 <= a <= b <= |s| && Trim(s) == s[a..b]
    ensures forall i :: 0 <= i < a ==> IsSpace(s[i])
    ensures forall i :: b <= i < |s| ==> IsSpace(s[i])
  {
    var t := TrimStart(s);
    assert t == s[a..];
    TrimEndOfSuffix(s, a, t, b);
  }

  /** The trailing half of TrimBounds, for the suffix t left by TrimStart. */
  lemma TrimEndOfSuffix(s: string, a: int, t: string, b: int)
    requires 0 <= a <= |s| && t == s[a..] && b == a + |TrimEnd(t)|
    ensures b <= |s| && TrimEnd(t) == s[a..b]
    ensures forall i :: b <= i < |s| ==> IsSpace(s[i])
  {
    var e := TrimEnd(t);
    assert e == t[..|e|];
    forall i | b <= i < |s|
      ensures IsSpace(s[i])
    {
      assert s[i] == t[i - a];
    }
  }

  /** Trimming twice is trimming once (the schema setter and the validator
      sanitiser both trim). */
  lemma TrimIdempotent(s: string)
    ensures Trim(Trim(s)) == Trim(s)
  {
    TrimmedIsFixed(Trim(s));
  }

  /** Trimming a string that is already trimmed changes nothing. */
  lemma TrimmedIsFixed(s: string)
    requires IsTrimmed(s)
    ensures Trim(s) == s
  {
    assert TrimStart(s) == s;
    assert TrimEnd(s) == s;
  }

  /** A string is blank exactly when every character is white space. */
  lemma {:induction false} TrimEmptyIffBlank(s: string)
    ensures Trim(s) == [] <==> forall i :: 0 <= i < |s| ==> IsSpace(s[i])
  {
    TrimIsSlice(s);
    if forall i :: 0 <= i < |s| ==> IsSpace(s[i]) {
      BlankTrimStart(s);
    }
  }

  lemma {:induction false} BlankTrimStart(s: string)
    requires forall i :: 0 <= i < |s| ==> IsSpace(s[i])
    ensures TrimStart(s) == []
  {
    if s != [] {
      BlankTrimStart(s[1..]);
    }
  }

  // ---------------------------------------------------------------------
  // String.prototype.toLowerCase over the ASCII letters.

  function LowerChar(c: char): (r: char)
    ensures 'A' <= c <= 'Z' ==> r as int == c as int + 32
    ensures !('A' <= c <= 'Z') ==> r == c
  {
    if 'A' <= c <= 'Z' then (c as int + 32) as char else c
  }

  function ToLower(s: string): (r: string)
    ensures |r| == |s|
    ensures forall i :: 0 <= i < |s| ==> r[i] == LowerChar(s[i])
  {
    if s == [] then [] else [LowerChar(s[0])] + ToLower(s[1..])
  }

  /** Lower-casing leaves no upper-case letter and is idempotent, so a stored
      lower-case email compares equal to the lower-cased form of itself. */
  lemma ToLowerIdempotent(s: string)
    ensures forall i :: 0 <= i < |s| ==> !('A' <= ToLower(s)[i] <= 'Z')
    ensures ToLower(ToLower(s)) == ToLower(s)
  {
  }

  // ---------------------------------------------------------------------
  // Array.prototype.join.

  function Join(parts: seq<string>, sep: string): (r: string)
    ensures parts == [] ==> r == []
    ensures |parts| == 1 ==> r == parts[0]
  {
    if parts == [] then []
    else if |parts| == 1 then parts[0]
    else parts[0] + sep + Join(parts[1..], sep)
  }

  /** Joining n non-empty parts with a separator spends n - 1 separators. */
  lemma {:induction false} JoinLength(parts: seq<string>, sep: string)
    ensures |Join(parts, sep)| ==
      SumLengths(parts) + (if parts == [] then 0 else (|parts| - 1) * |sep|)
  {
    if |parts| > 1 {
      JoinLength(parts[1..], sep);
    }
  }

  /** Appending a part to a non-empty list appends one separator and it. */
  lemma {:induction false} JoinSnoc(parts: seq<string>, p: string, sep: string)
    requires parts != []
    ensures Join(parts + [p], sep) == Join(parts, sep) + sep + p
  {
    if |parts| == 1 {
      assert (parts + [p])[1..] == [p];
    } else {
      JoinSnoc(parts[1..], p, sep);
      assert (parts + [p])[1..] == parts[1..] + [p];
    }
  }

  function SumLengths(parts: seq<string>): nat {
    if parts == [] then 0 else |parts[0]| + SumLengths(parts[1..])
  }

  // ---------------------------------------------------------------------
  // Array.prototype.filter with an arbitrary predicate.

  function Filter<T(!new)>(s: seq<T>, keep: T -> bool): (r: seq<T>)
    ensures |r| <= |s|
    ensures forall x :: x in r <==> x in s && keep(x)
  {
    if s == [] then []
    else if keep(s[0]) then [s[0]] + Filter(s[1..], keep)
    else Filter(s[1..], keep)
  }

  /** Filtering keeps the kept elements in their original order: it is the
      whole input when nothing is dropped. */
  lemma {:induction false} FilterAllKept<T(!new)>(s: seq<T>, keep: T -> bool)
    requires forall x :: x in s ==> keep(x)
    ensures Filter(s, keep) == s
  {
    if s != [] {
      FilterAllKept(s[1..], keep);
    }
  }

  /** Filtering keeps nothing when no element passes. */
  lemma {:induction false} FilterNoneKept<T(!new)>(s: seq<T>, keep: T -> bool)
    requires forall x :: x in s ==> !keep(x)
    ensures Filter(s, keep) == []
  {
    if s != [] {
      assert s[0] in s;
      FilterNoneKept(s[1..], keep);
    }
  }

  /** Filtering keeps the order of the kept elements: any relation that
      holds between every earlier and later element of the input holds
      between every earlier and later element of the output. */
  lemma {:induction false} FilterKeepsPairs<T(!new)>(s: seq<T>, keep: T -> bool, rel: (T, T) -> bool)
    requires forall i, j :: 0 <= i < j < |s| ==> rel(s[i], s[j])
    ensures forall i, j :: 0 <= i < j < |Filter(s, keep)| ==> rel(Filter(s, keep)[i], Filter(s, keep)[j])
  {
    if s != [] {
      var rest := s[1..];
      forall i, j | 0 <= i < j < |rest| ensures rel(rest[i], rest[j]) {
        assert rest[i] == s[i + 1] && rest[j] == s[j + 1];
      }
      FilterKeepsPairs(rest, keep, rel);
      var fr := Filter(rest, keep);
      if keep(s[0]) {
        forall j | 0 <= j < |fr|
          ensures rel(s[0], fr[j])
        {
          assert fr[j] in rest;
          var m :| 0 <= m < |rest| && rest[m] == fr[j];
          assert s[m + 1] == fr[j];
        }
        var f := Filter(s, keep);
        assert f == [s[0]] + fr;
        forall i, j | 0 <= i < j < |f| ensures rel(f[i], f[j]) {
          if i == 0 {
            assert f[j] == fr[j - 1];
          } else {
            assert f[i] == fr[i - 1] && f[j] == fr[j - 1];
          }
        }
      } else {
        assert Filter(s, keep) == fr;
      }
    }
  }

  /** A validator's contribution to the error list: its message when the
      check fails, nothing otherwise. */
  function ErrorUnless(ok: bool, msg: string): (r: seq<string>)
    ensures |r| == if ok then 0 else 1
    ensures !ok ==> r == [msg]
  {
    if ok then [] else [msg]
  }

  /** Filter distributes over concatenation. */
  lemma {:induction false} FilterAppend<T(!new)>(s: seq<T>, t: seq<T>, keep: T -> bool)
    ensures Filter(s + t, keep) == Filter(s, keep) + Filter(t, keep)
  {
    if s == [] {
      assert s + t == t;
    } else {
      assert (s + t)[1..] == s[1..] + t;
      FilterAppend(s[1..], t, keep);
    }
  }

  /** Filtering out the one element that fails leaves the rest in order. */
  lemma FilterDropsOne<T(!new)>(pre: seq<T>, x: T, post: seq<T>, keep: T -> bool)
    requires forall y :: y in pre ==> keep(y)
    requires forall y :: y in post ==> keep(y)
    requires !keep(x)
    ensures Filter(pre + [x] + post, keep) == pre + post
  {
    calc {
      Filter(pre + [x] + post, keep);
      { FilterAppend(pre + [x], post, keep); }
      Filter(pre + [x], keep) + Filter(post, keep);
      { FilterAppend(pre, [x], keep); }
      Filter(pre, keep) + Filter([x], keep) + Filter(post, keep);
      { assert [x][1..] == []; }
      Filter(pre, keep) + [] + Filter(post, keep);
      { FilterAllKept(pre, keep); FilterAllKept(post, keep); }
      pre + [] + post;
    }
    assert pre + [] + post == pre + post;
  }

  /** Every element of a slice whose indices all pass, passes. */
  lemma SliceKept<T>(s: seq<T>, lo: nat, hi: nat, keep: T -> bool)
    requires lo <= hi <= |s|
    requires forall i :: lo <= i < hi ==> keep(s[i])
    ensures forall y :: y in s[lo..hi] ==> keep(y)
  {
    forall y | y in s[lo..hi] ensures keep(y) {
      var i :| 0 <= i < hi - lo && s[lo..hi][i] == y;
      assert s[lo + i] == y;
    }
  }

  /** When only the element at k fails, filtering deletes it in place. */
  lemma FilterDropsAt<T(!new)>(s: seq<T>, k: nat, keep: T -> bool)
    requires k < |s| && !keep(s[k])
    requires forall i :: 0 <= i < |s| && i != k ==> keep(s[i])
    ensures Filter(s, keep) == s[..k] + s[k + 1..]
  {
    SliceKept(s, 0, k, keep);
    SliceKept(s, k + 1, |s|, keep);
    SplitAt(s, k);
    FilterDropsOne(s[0..k], s[k], s[k + 1..|s|], keep);
  }

  lemma SplitAt<T>(s: seq<T>, k: nat)
    requires k < |s|
    ensures s == s[0..k] + [s[k]] + s[k + 1..|s|]
    ensures s[..k] == s[0..k] && s[k + 1..] == s[k + 1..|s|]
  {
  }

  /** Replacing a dropped element by another dropped element does not
      change the filtered sequence. */
  lemma {:induction false} FilterReplaceDropped<T(!new)>(s: seq<T>, k: nat, x: T, keep: T -> bool)
    requires k < |s| && !keep(s[k]) && !keep(x)
    ensures Filter(s[k := x], keep) == Filter(s, keep)
  {
    if k == 0 {
      assert s[k := x][1..] == s[1..];
    } else {
      assert s[k := x][1..] == s[1..][k - 1 := x];
      FilterReplaceDropped(s[1..], k - 1, x, keep);
    }
  }

  /** Filtering with the same predicate twice is filtering once. */
  lemma {:induction false} FilterIdempotent<T(!new)>(s: seq<T>, keep: T -> bool)
    ensures Filter(Filter(s, keep), keep) == Filter(s, keep)
  {
    FilterAllKept(Filter(s, keep), keep);
  }

  predicate IsDigit(c: char) { '0' <= c <= '9' }

  predicate AllDigits(s: string) {
    forall i :: 0 <= i < |s| ==> IsDigit(s[i])
  }

  /** Decimal digits of a natural number, as a template literal or a
      mongoose error path prints it. */
  function DecimalString(n: nat): (r: string)
    ensures |r| > 0 && AllDigits(r)
  {
    var d := ['0' + (n % 10) as char];
    if n < 10 then d else DecimalString(n / 10) + d
  }

  /** The message of the `min: [1, "Quantity must be at least 1"]` validator
      on the quantity of the line at index k of `items`: mongoose reports a
      subdocument's path with its index, `items.<k>.quantity`. */
  function QuantityError(k: nat): string {
    "items." + DecimalString(k) + ".quantity: Quantity must be at least 1"
  }
}
