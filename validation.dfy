// The request-body validators of the server (server/middleware/validation.js).
// A rule set is a list of field chains. A chain runs its steps in order on one
// body field: sanitizers rewrite the field, validators add an error carrying
// their message when they fail, and every validator of every chain runs.
// `validate` answers 400 with all the errors, or passes the sanitized body on.
// Each chain reads its field as the request brought it: the chains run side
// by side under Promise.all, and no rule set has two chains on one field.
// A chain's errors are recorded on the request when its last step is done,
// so the errors come chain by chain in the order the chains finish.
module Validation {
  import opened Common

  /** A request body: field name to the field's text. A field that is not
      in the map is undefined; validators see it as "". */
  type Body = map<string, string>

  datatype FieldError = FieldError(field: string, msg: string)

  datatype Step =
    | TrimStep                                  // .trim()
    | Sanitize(apply: string -> string)         // .normalizeEmail()
    | Check(test: string -> bool, msg: string)  // a validator and its .withMessage
    | ExistsCheck(msg: string)                  // .exists()

  /** body(field) followed by its steps; `optional` is `.optional()`, which
      skips the whole chain when the field is undefined. */
  datatype Chain = Chain(field: string, optional: bool, steps: seq<Step>)

  datatype Response = BadRequest(errors: seq<FieldError>) | Next(body: Body)

  function Lookup(body: Body, field: string): (r: Option<string>)
    ensures r.Some? <==> field in body
    ensures r.Some? ==> r.value == body[field]
  {
    if field in body then Some(body[field]) else None
  }

  /** The text a validator receives: undefined reads as "". */
  function Text(v: Option<string>): (r: string)
    ensures v.Some? ==> r == v.value
    ensures v.None? ==> r == ""
  {
    if v.Some? then v.value else ""
  }

  function MapSome(v: Option<string>, f: string -> string): (r: Option<string>)
    ensures r.Some? <==> v.Some?
    ensures r.Some? ==> r.value == f(v.value)
  {
    if v.Some? then Some(f(v.value)) else None
  }

  /** The error one step adds. */
  function StepErrors(field: string, v: Option<string>, st: Step): seq<FieldError> {
    if st.Check? then (if st.test(Text(v)) then [] else [FieldError(field, st.msg)])
    else if st.ExistsCheck? then (if v.Some? then [] else [FieldError(field, st.msg)])
    else []
  }

  /** The value after one step: only sanitizers change it. */
  function StepValue(v: Option<string>, st: Step): Option<string> {
    if st.TrimStep? then MapSome(v, Trim)
    else if st.Sanitize? then MapSome(v, st.apply)
    else v
  }

  /** The steps of one chain on the field's value: the errors, in step
      order, and the value left after the sanitizers. */
  function RunSteps(field: string, v: Option<string>, steps: seq<Step>): (r: (seq<FieldError>, Option<string>))
    ensures r.1.Some? <==> v.Some?
    decreases |steps|
  {
    if steps == [] then ([], v)
    else
      var more := RunSteps(field, StepValue(v, steps[0]), steps[1..]);
      (StepErrors(field, v, steps[0]) + more.0, more.1)
  }

  /** One chain on the body: its errors and its field's final value (None
      when the field is undefined). An optional chain on an undefined field
      does nothing. */
  function ChainRun(c: Chain, body: Body): (r: (seq<FieldError>, Option<string>))
    ensures r.1.Some? <==> c.field in body
  {
    if c.optional && c.field !in body then ([], None)
    else RunSteps(c.field, Lookup(body, c.field), c.steps)
  }

  /** The errors of the chains taken in the given order, each chain's in
      step order. */
  function ErrorsInOrder(chains: seq<Chain>, body: Body): seq<FieldError> {
    if chains == [] then [] else ChainRun(chains[0], body).0 + ErrorsInOrder(chains[1..], body)
  }

  /** Chains with fewer steps come first. */
  predicate StepSorted(chains: seq<Chain>) {
    forall i, j :: 0 <= i < j < |chains| ==> |chains[i].steps| <= |chains[j].steps|
  }

  /** Puts c before the first chain with at least as many steps. */
  function InsertByLength(c: Chain, sorted: seq<Chain>): seq<Chain> {
    if sorted == [] || |c.steps| <= |sorted[0].steps| then [c] + sorted
    else [sorted[0]] + InsertByLength(c, sorted[1..])
  }

  /** Inserting adds c and loses nothing. */
  lemma {:induction false} InsertByLengthPerm(c: Chain, sorted: seq<Chain>)
    ensures multiset(InsertByLength(c, sorted)) == multiset(sorted) + multiset{c}
  {
    if sorted != [] && |c.steps| > |sorted[0].steps| {
      InsertByLengthPerm(c, sorted[1..]);
      assert sorted == [sorted[0]] + sorted[1..];
    }
  }

  /** Inserting into a sorted list keeps it sorted. */
  lemma {:induction false} InsertByLengthSorted(c: Chain, sorted: seq<Chain>)
    requires StepSorted(sorted)
    ensures StepSorted(InsertByLength(c, sorted))
  {
    if sorted == [] || |c.steps| <= |sorted[0].steps| {
      ConsSorted(c, sorted);
    } else {
      var tail := sorted[1..];
      var rest := InsertByLength(c, tail);
      InsertByLengthSorted(c, tail);
      InsertByLengthPerm(c, tail);
      forall x | x in rest
        ensures |sorted[0].steps| <= |x.steps|
      {
        assert x in multiset(rest);
        if x != c {
          var j :| 0 <= j < |tail| && tail[j] == x;
          assert sorted[j + 1] == x;
        }
      }
      ConsSorted(sorted[0], rest);
    }
  }

  lemma ConsSorted(first: Chain, rest: seq<Chain>)
    requires StepSorted(rest)
    requires forall x :: x in rest ==> |first.steps| <= |x.steps|
    ensures StepSorted([first] + rest)
  {
    var r := [first] + rest;
    forall i, j | 0 <= i < j < |r|
      ensures |r[i].steps| <= |r[j].steps|
    {
      assert r[j] == rest[j - 1] && r[j] in rest;
      if i > 0 {
        assert r[i] == rest[i - 1];
      }
    }
  }

  /** The order in which the chains finish under Promise.all. Every step,
      sanitizer or validator, is one awaited round of the chain's runner, and
      the chains start in rule order: a chain with fewer steps finishes first,
      and chains with as many steps finish in rule order. */
  function CompletionOrder(chains: seq<Chain>): seq<Chain> {
    if chains == [] then [] else InsertByLength(chains[0], CompletionOrder(chains[1..]))
  }

  /** Every chain finishes exactly once. */
  lemma {:induction false} CompletionOrderPerm(chains: seq<Chain>)
    ensures multiset(CompletionOrder(chains)) == multiset(chains)
  {
    if chains != [] {
      CompletionOrderPerm(chains[1..]);
      InsertByLengthPerm(chains[0], CompletionOrder(chains[1..]));
      assert chains == [chains[0]] + chains[1..];
    }
  }

  /** No chain finishes before one with fewer steps. */
  lemma {:induction false} CompletionOrderSorted(chains: seq<Chain>)
    ensures StepSorted(CompletionOrder(chains))
  {
    if chains != [] {
      CompletionOrderSorted(chains[1..]);
      InsertByLengthSorted(chains[0], CompletionOrder(chains[1..]));
    }
  }

  /** The errors validationResult lists: chain by chain in completion order. */
  function Errors(chains: seq<Chain>, body: Body): seq<FieldError> {
    ErrorsInOrder(CompletionOrder(chains), body)
  }

  /** The body after one chain's sanitizers: only its own field changes. */
  function Sanitize1(c: Chain, body: Body): (r: Body)
    ensures forall f :: f in r <==> f in body
    ensures forall f :: f != c.field ==> Lookup(r, f) == Lookup(body, f)
    ensures Lookup(r, c.field) == ChainRun(c, body).1
  {
    var v := ChainRun(c, body).1;
    if v.Some? then body[c.field := v.value] else body
  }

  /** The body after every chain's sanitizers. */
  function Sanitized(chains: seq<Chain>, body: Body): (r: Body)
    ensures forall f :: f in r <==> f in body
  {
    if chains == [] then body else Sanitized(chains[1..], Sanitize1(chains[0], body))
  }

  /** validate(rules): 400 with every error when there is one, otherwise
      next() with the sanitized body. */
  function Validate(chains: seq<Chain>, body: Body): (r: Response)
    ensures r.BadRequest? <==> Errors(chains, body) != []
    ensures r.BadRequest? ==> r.errors == Errors(chains, body)
    ensures r.Next? ==> r.body == Sanitized(chains, body) && forall f :: f in r.body <==> f in body
  {
    var errs := Errors(chains, body);
    if errs != [] then BadRequest(errs) else Next(Sanitized(chains, body))
  }

  lemma {:induction false} ErrorsInOrderEmptyIff(chains: seq<Chain>, body: Body)
    ensures ErrorsInOrder(chains, body) == [] <==> forall c :: c in chains ==> ChainRun(c, body).0 == []
  {
    if chains != [] {
      ErrorsInOrderEmptyIff(chains[1..], body);
      assert forall c :: c in chains <==> c == chains[0] || c in chains[1..];
    }
  }

  /** A rule set passes exactly when every chain passes on its own: the
      order the chains finish in does not matter. */
  lemma ErrorsEmptyIff(chains: seq<Chain>, body: Body)
    ensures Errors(chains, body) == [] <==> forall i :: 0 <= i < |chains| ==> ChainRun(chains[i], body).0 == []
  {
    var order := CompletionOrder(chains);
    CompletionOrderPerm(chains);
    ErrorsInOrderEmptyIff(order, body);
    assert forall c :: c in order <==> c in chains by {
      forall c ensures c in order <==> c in chains {
        assert c in order <==> c in multiset(order);
      }
    }
  }

  lemma CompletionOrderCons(c: Chain, rest: seq<Chain>)
    ensures CompletionOrder([c] + rest) == InsertByLength(c, CompletionOrder(rest))
  {
    assert ([c] + rest)[1..] == rest;
  }

  lemma InsertFirst(c: Chain, sorted: seq<Chain>)
    requires sorted == [] || |c.steps| <= |sorted[0].steps|
    ensures InsertByLength(c, sorted) == [c] + sorted
  {
  }

  lemma InsertAfter(c: Chain, first: Chain, rest: seq<Chain>)
    requires |first.steps| < |c.steps|
    ensures InsertByLength(c, [first] + rest) == [first] + InsertByLength(c, rest)
  {
    assert ([first] + rest)[1..] == rest;
  }

  /** Chains of equal length finish in rule order. */
  lemma {:induction false} CompletionOrderSameSteps(chains: seq<Chain>)
    requires forall i :: 0 <= i < |chains| ==> |chains[i].steps| == |chains[0].steps|
    ensures CompletionOrder(chains) == chains
  {
    if chains != [] {
      var rest := chains[1..];
      if rest != [] {
        assert forall i :: 0 <= i < |rest| ==> |rest[i].steps| == |rest[0].steps| == |chains[0].steps|;
      }
      CompletionOrderSameSteps(rest);
      assert chains == [chains[0]] + rest;
    }
  }

  lemma ErrorsTwo(c1: Chain, c2: Chain, body: Body)
    ensures ErrorsInOrder([c1, c2], body) == ChainRun(c1, body).0 + ChainRun(c2, body).0
  {
    assert [c1, c2][1..] == [c2];
    assert [c2][1..] == [];
    assert ErrorsInOrder([c2], body) == ChainRun(c2, body).0 + [];
  }

  lemma ErrorsThree(c1: Chain, c2: Chain, c3: Chain, body: Body)
    ensures ErrorsInOrder([c1, c2, c3], body) == ChainRun(c1, body).0 + ChainRun(c2, body).0 + ChainRun(c3, body).0
  {
    assert [c1, c2, c3][1..] == [c2, c3];
    ErrorsTwo(c2, c3, body);
  }

  /** Three chains whose last has fewer steps than the other two, which have
      as many as each other: the last finishes first, then the others in
      rule order. */
  lemma ShortLastFinishesFirst(c1: Chain, c2: Chain, c3: Chain, body: Body)
    requires |c3.steps| < |c1.steps| == |c2.steps|
    ensures CompletionOrder([c1, c2, c3]) == [c3, c1, c2]
    ensures Errors([c1, c2, c3], body) == ChainRun(c3, body).0 + ChainRun(c1, body).0 + ChainRun(c2, body).0
  {
    CompletionOrderCons(c1, [c2, c3]);
    ShortLastFinishesFirstTwo(c2, c3, body);
    InsertAfter(c1, c3, [c2]);
    InsertFirst(c1, [c2]);
    ErrorsThree(c3, c1, c2, body);
  }

  /** Two chains whose last has fewer steps: it finishes first. */
  lemma ShortLastFinishesFirstTwo(c1: Chain, c2: Chain, body: Body)
    requires |c2.steps| < |c1.steps|
    ensures CompletionOrder([c1, c2]) == [c2, c1]
    ensures Errors([c1, c2], body) == ChainRun(c2, body).0 + ChainRun(c1, body).0
  {
    CompletionOrderCons(c1, [c2]);
    CompletionOrderCons(c2, []);
    InsertFirst(c2, []);
    InsertAfter(c1, c2, []);
    InsertFirst(c1, []);
    ErrorsTwo(c2, c1, body);
  }

  lemma EmptyConcat3(e1: seq<FieldError>, e2: seq<FieldError>, e3: seq<FieldError>)
    ensures e1 + e2 + e3 == [] <==> e1 == [] && e2 == [] && e3 == []
  {
    assert |e1 + e2 + e3| == |e1| + |e2| + |e3|;
  }

  /** A field no chain names reaches the next handler unchanged. */
  lemma {:induction false} SanitizedFrame(chains: seq<Chain>, body: Body, f: string)
    requires forall i :: 0 <= i < |chains| ==> chains[i].field != f
    ensures Lookup(Sanitized(chains, body), f) == Lookup(body, f)
  {
    if chains != [] {
      assert forall i :: 1 <= i < |chains| ==> chains[1..][i - 1] == chains[i];
      SanitizedFrame(chains[1..], Sanitize1(chains[0], body), f);
    }
  }

  /** The field of the first chain, when no later chain names it, reaches the
      next handler as that chain left it. */
  lemma SanitizedFirst(c: Chain, rest: seq<Chain>, body: Body)
    requires forall i :: 0 <= i < |rest| ==> rest[i].field != c.field
    ensures Lookup(Sanitized([c] + rest, body), c.field) == ChainRun(c, body).1
  {
    assert ([c] + rest)[0] == c && ([c] + rest)[1..] == rest;
    SanitizedFrame(rest, Sanitize1(c, body), c.field);
  }

  /** No two chains of the rule set name the same field. */
  predicate DistinctFields(chains: seq<Chain>) {
    forall i, j :: 0 <= i < j < |chains| ==> chains[i].field != chains[j].field
  }

  /** A chain reads nothing of the body but its own field. */
  lemma ChainRunLocal(c: Chain, b1: Body, b2: Body)
    requires Lookup(b1, c.field) == Lookup(b2, c.field)
    ensures ChainRun(c, b1) == ChainRun(c, b2)
  {
  }

  /** With distinct fields, every chain's field reaches the next handler as
      that chain alone, run on the request as sent, left it: the order in
      which the chains run does not matter. */
  lemma {:induction false} SanitizedField(chains: seq<Chain>, body: Body, k: nat)
    requires k < |chains| && DistinctFields(chains)
    ensures Lookup(Sanitized(chains, body), chains[k].field) == ChainRun(chains[k], body).1
  {
    var rest := chains[1..];
    assert chains == [chains[0]] + rest;
    assert forall i :: 0 <= i < |rest| ==> rest[i] == chains[i + 1];
    if k == 0 {
      SanitizedFirst(chains[0], rest, body);
    } else {
      var b1 := Sanitize1(chains[0], body);
      SanitizedField(rest, b1, k - 1);
      ChainRunLocal(chains[k], b1, body);
    }
  }

  /** One step, then the rest of the chain. */
  lemma RunStepsCons(field: string, v: Option<string>, st: Step, rest: seq<Step>)
    ensures var more := RunSteps(field, StepValue(v, st), rest);
            RunSteps(field, v, [st] + rest) == (StepErrors(field, v, st) + more.0, more.1)
  {
    assert ([st] + rest)[0] == st && ([st] + rest)[1..] == rest;
  }

  lemma RunStepsOne(field: string, v: Option<string>, st: Step)
    ensures RunSteps(field, v, [st]) == (StepErrors(field, v, st), StepValue(v, st))
  {
    assert [st][1..] == [];
    assert RunSteps(field, StepValue(v, st), []) == ([], StepValue(v, st));
    assert StepErrors(field, v, st) + [] == StepErrors(field, v, st);
  }

  // ---------------------------------------------------------------------
  // The character-level tests.

  function MinLength(n: nat): string -> bool {
    (s: string) => |s| >= n
  }

  function NotEmpty(): string -> bool {
    (s: string) => s != ""
  }

  predicate IsAsciiLetter(c: char) { 'a' <= c <= 'z' || 'A' <= c <= 'Z' }

  predicate IsLineTerminator(c: char) {
    c == '\n' || c == '\r' || c == '\U{2028}' || c == '\U{2029}'
  }

  /** The text after an optional leading sign. */
  function Unsigned(s: string): (r: string)
    ensures |r| <= |s|
  {
    if |s| > 0 && (s[0] == '+' || s[0] == '-') then s[1..] else s
  }

  /** isInt with leading zeros allowed: an optional sign and at least one
      digit. */
  predicate IsIntText(s: string) {
    |Unsigned(s)| > 0 && AllDigits(Unsigned(s))
  }

  function DigitsValue(s: string): (n: nat)
    requires AllDigits(s)
  {
    if s == [] then 0
    else
      var last := s[|s| - 1];
      assert IsDigit(last);
      DigitsValue(s[..|s| - 1]) * 10 + (last as int - '0' as int)
  }

  /** parseInt of an integer text. */
  function IntValue(s: string): (n: int)
    requires IsIntText(s)
  {
    var m: int := DigitsValue(Unsigned(s));
    if s[0] == '-' then -m else m
  }

  /** isInt({ min, max }). */
  function IntIn(lo: int, hi: int): string -> bool {
    (s: string) => IsIntText(s) && lo <= IntValue(s) <= hi
  }

  lemma IntInApply(lo: int, hi: int, s: string)
    ensures IntIn(lo, hi)(s) <==> IsIntText(s) && lo <= IntValue(s) <= hi
  {
  }

  /** The text before the first line terminator, which is as far as `.`
      reaches from the start. */
  function FirstLine(s: string): (r: string)
    ensures |r| <= |s| && r == s[..|r|]
    ensures forall i :: 0 <= i < |r| ==> !IsLineTerminator(r[i])
    ensures |r| < |s| ==> IsLineTerminator(s[|r|])
  {
    if s == [] || IsLineTerminator(s[0]) then [] else [s[0]] + FirstLine(s[1..])
  }

  /** matches(/^(?=.*[A-Za-z])(?=.*\d)/). */
  predicate HasLetterAndDigit(s: string) {
    var line := FirstLine(s);
    (exists i :: 0 <= i < |line| && IsAsciiLetter(line[i]))
    && (exists i :: 0 <= i < |line| && IsDigit(line[i]))
  }

  function LetterAndDigit(): string -> bool {
    (s: string) => HasLetterAndDigit(s)
  }

  /** The lookaheads read directly: a letter and a digit each occur with no
      line terminator before them. */
  lemma HasLetterAndDigitIff(s: string)
    ensures HasLetterAndDigit(s) <==>
              (exists i :: 0 <= i < |s| && IsAsciiLetter(s[i]) && forall j :: 0 <= j < i ==> !IsLineTerminator(s[j]))
              && (exists i :: 0 <= i < |s| && IsDigit(s[i]) && forall j :: 0 <= j < i ==> !IsLineTerminator(s[j]))
  {
    var line := FirstLine(s);
    forall i | 0 <= i < |s| && forall j :: 0 <= j < i ==> !IsLineTerminator(s[j])
      ensures i < |line| || (i == |line| && IsLineTerminator(s[i]))
    {
      assert |line| < |s| ==> IsLineTerminator(s[|line|]);
    }
  }

  /** Reading back the printed number gives the number. */
  lemma {:induction false} DecimalStringRoundTrip(n: nat)
    ensures IsIntText(DecimalString(n)) && IntValue(DecimalString(n)) == n
  {
    DigitsRoundTrip(n);
  }

  lemma {:induction false} DigitsRoundTrip(n: nat)
    ensures DigitsValue(DecimalString(n)) == n
  {
    var s := DecimalString(n);
    if n >= 10 {
      DigitsRoundTrip(n / 10);
      assert s[..|s| - 1] == DecimalString(n / 10);
    }
  }

  // ---------------------------------------------------------------------
  // The rule sets. `isEmail` and `normalizeEmail` are express-validator
  // built-ins, kept as parameters; `currentYear` is the clock's year.

  function SignupRules(isEmail: string -> bool): seq<Chain> {
    [ Chain("username", false, [TrimStep, Check(MinLength(3), "Username must be at least 3 characters")]),
      Chain("email", false, [TrimStep, Check(isEmail, "Please provide a valid email address")]),
      Chain("password", false, [Check(MinLength(6), "Password must be at least 6 characters")]) ]
  }

  function LoginRules(isEmail: string -> bool): seq<Chain> {
    [ Chain("email", false, [TrimStep, Check(isEmail, "Please provide a valid email address")]),
      Chain("password", false, [ExistsCheck("Password is required")]) ]
  }

  function BookRules(currentYear: nat): seq<Chain> {
    [ Chain("title", false, [TrimStep, Check(NotEmpty(), "Book title is required")]),
      Chain("author", false, [TrimStep, Check(NotEmpty(), "Author name is required")]),
      Chain("publishedYear", true,
            [Check(IntIn(0, currentYear), "Year must be between 0 and " + DecimalString(currentYear))]) ]
  }

  function ReviewRules(): seq<Chain> {
    [ Chain("rating", false, [Check(IntIn(1, 5), "Rating must be between 1 and 5")]),
      Chain("comment", true, [TrimStep]) ]
  }

  function EmailUpdateRules(isEmail: string -> bool, normalizeEmail: string -> string): seq<Chain> {
    [ Chain("email", false, [TrimStep, Check(isEmail, "Please provide a valid email address"),
                             Sanitize(normalizeEmail)]) ]
  }

  function PasswordUpdateRules(): seq<Chain> {
    [ Chain("password", false,
            [Check(MinLength(6), "Password must be at least 6 characters long"),
             Check(LetterAndDigit(), "Password must contain at least one letter and one number")]) ]
  }

  // ---------------------------------------------------------------------
  // What each chain shape does.

  /** The field as a validator sees it, trimmed. */
  function TrimmedField(body: Body, field: string): string {
    Trim(Text(Lookup(body, field)))
  }

  /** The steps `.trim()` and one validator on a value. */
  lemma TrimThenCheckSteps(field: string, v: Option<string>, test: string -> bool, msg: string)
    ensures var r := RunSteps(field, v, [TrimStep, Check(test, msg)]);
            && r.0 == (if test(Text(MapSome(v, Trim))) then [] else [FieldError(field, msg)])
            && r.1 == MapSome(v, Trim)
  {
    var w := MapSome(v, Trim);
    var chk := Check(test, msg);
    assert [TrimStep, chk] == [TrimStep] + [chk];
    RunStepsCons(field, v, TrimStep, [chk]);
    RunStepsOne(field, w, chk);
    assert StepValue(v, TrimStep) == w;
    assert StepErrors(field, v, TrimStep) == [];
    assert StepErrors(field, w, chk) == if test(Text(w)) then [] else [FieldError(field, msg)];
  }

  /** `.trim()` then one validator: the validator sees the trimmed text and
      the field, when sent, is left trimmed. */
  lemma TrimCheckChain(field: string, test: string -> bool, msg: string, body: Body)
    ensures var r := ChainRun(Chain(field, false, [TrimStep, Check(test, msg)]), body);
            && (r.0 == [] <==> test(TrimmedField(body, field)))
            && r.1 == MapSome(Lookup(body, field), Trim)
  {
    var v := Lookup(body, field);
    var steps := [TrimStep, Check(test, msg)];
    TrimThenCheckSteps(field, v, test, msg);
    assert ChainRun(Chain(field, false, steps), body) == RunSteps(field, v, steps);
    TextOfTrimmed(v);
  }

  lemma TextOfTrimmed(v: Option<string>)
    ensures Text(MapSome(v, Trim)) == Trim(Text(v))
  {
    if v.None? {
      assert |Trim("")| <= 0;
    }
  }

  /** One validator: it sees the text as sent, or nothing at all when the
      chain is optional and the field undefined. */
  lemma CheckChain(field: string, optional: bool, test: string -> bool, msg: string, body: Body)
    ensures var r := ChainRun(Chain(field, optional, [Check(test, msg)]), body);
            r.0 == (if (optional && field !in body) || test(Text(Lookup(body, field))) then []
                    else [FieldError(field, msg)])
  {
    RunStepsOne(field, Lookup(body, field), Check(test, msg));
  }

  // ---------------------------------------------------------------------
  // What each rule set accepts, stated field by field.

  /** Signup: a username of at least 3 characters and an e-mail address,
      both after trimming, and a password of at least 6 characters. */
  lemma SignupAccepts(isEmail: string -> bool, body: Body)
    ensures Validate(SignupRules(isEmail), body).Next? <==>
              |TrimmedField(body, "username")| >= 3 && isEmail(TrimmedField(body, "email"))
              && |Text(Lookup(body, "password"))| >= 6
  {
    var rules := SignupRules(isEmail);
    var c1, c2, c3 := rules[0], rules[1], rules[2];
    assert rules == [c1, c2, c3];
    ShortLastFinishesFirst(c1, c2, c3, body);
    TrimCheckChain("username", MinLength(3), "Username must be at least 3 characters", body);
    TrimCheckChain("email", isEmail, "Please provide a valid email address", body);
    CheckChain("password", false, MinLength(6), "Password must be at least 6 characters", body);
    var e1, e2, e3 := ChainRun(c1, body).0, ChainRun(c2, body).0, ChainRun(c3, body).0;
    assert e1 == [] <==> |TrimmedField(body, "username")| >= 3;
    assert e2 == [] <==> isEmail(TrimmedField(body, "email"));
    assert e3 == [] <==> |Text(Lookup(body, "password"))| >= 6;
    EmptyConcat3(e3, e1, e2);
  }

  /** Signup with an empty body: the password chain, with one step, finishes
      first, so its error is listed before the username's and the address's. */
  lemma SignupEmptyBodyErrors(isEmail: string -> bool)
    requires !isEmail("")
    ensures Validate(SignupRules(isEmail), map[]) ==
              BadRequest([FieldError("password", "Password must be at least 6 characters"),
                          FieldError("username", "Username must be at least 3 characters"),
                          FieldError("email", "Please provide a valid email address")])
  {
    var body: Body := map[];
    var rules := SignupRules(isEmail);
    var c1, c2, c3 := rules[0], rules[1], rules[2];
    assert rules == [c1, c2, c3];
    ShortLastFinishesFirst(c1, c2, c3, body);
    TrimThenCheckSteps("username", None, MinLength(3), "Username must be at least 3 characters");
    TrimThenCheckSteps("email", None, isEmail, "Please provide a valid email address");
    RunStepsOne("password", None, c3.steps[0]);
    assert Text(MapSome(None, Trim)) == "";
  }

  /** The signup request passed on holds the trimmed username and address,
      and the password as sent. */
  lemma SignupSanitizes(isEmail: string -> bool, body: Body)
    ensures var out := Sanitized(SignupRules(isEmail), body);
            && Lookup(out, "username") == MapSome(Lookup(body, "username"), Trim)
            && Lookup(out, "email") == MapSome(Lookup(body, "email"), Trim)
            && Lookup(out, "password") == Lookup(body, "password")
  {
    var rules := SignupRules(isEmail);
    var out := Sanitized(rules, body);
    assert DistinctFields(rules);
    assert Lookup(out, "username") == MapSome(Lookup(body, "username"), Trim) by {
      SanitizedField(rules, body, 0);
      TrimCheckChain("username", MinLength(3), "Username must be at least 3 characters", body);
    }
    assert Lookup(out, "email") == MapSome(Lookup(body, "email"), Trim) by {
      SanitizedField(rules, body, 1);
      TrimCheckChain("email", isEmail, "Please provide a valid email address", body);
    }
    assert Lookup(out, "password") == Lookup(body, "password") by {
      SanitizedField(rules, body, 2);
      RunStepsOne("password", Lookup(body, "password"), rules[2].steps[0]);
    }
  }

  /** A required field with only an existence check passes exactly when
      the field was sent. */
  lemma ExistsChain(field: string, msg: string, body: Body)
    ensures ChainRun(Chain(field, false, [ExistsCheck(msg)]), body).0 == [] <==> field in body
  {
    RunStepsOne(field, Lookup(body, field), ExistsCheck(msg));
  }

  /** Login: an e-mail address after trimming, and a password field that is
      present at all (an empty one passes). */
  lemma LoginAccepts(isEmail: string -> bool, body: Body)
    ensures Validate(LoginRules(isEmail), body).Next? <==>
              isEmail(TrimmedField(body, "email")) && "password" in body
  {
    var rules := LoginRules(isEmail);
    var c1, c2 := rules[0], rules[1];
    assert rules == [c1, c2];
    ShortLastFinishesFirstTwo(c1, c2, body);
    TrimCheckChain("email", isEmail, "Please provide a valid email address", body);
    ExistsChain("password", "Password is required", body);
    var e1, e2 := ChainRun(c1, body).0, ChainRun(c2, body).0;
    assert e2 + e1 == [] <==> e1 == [] && e2 == [];
  }

  /** The year chain of the book rules: an undefined year passes, a sent
      one must be an integer from 0 to the current year. */
  lemma BookYearChain(currentYear: nat, body: Body)
    ensures ChainRun(BookRules(currentYear)[2], body).0 == [] <==>
              ("publishedYear" in body ==>
                 IsIntText(body["publishedYear"]) && 0 <= IntValue(body["publishedYear"]) <= currentYear)
  {
    var c3 := BookRules(currentYear)[2];
    var yearOk := IntIn(0, currentYear);
    CheckChain("publishedYear", true, yearOk, c3.steps[0].msg, body);
    assert c3 == Chain("publishedYear", true, [Check(yearOk, c3.steps[0].msg)]);
    if "publishedYear" in body {
      IntInApply(0, currentYear, body["publishedYear"]);
    }
  }

  /** Books: title and author non-empty after trimming; the year, when sent
      at all, an integer from 0 to the current year. */
  lemma BookAccepts(currentYear: nat, body: Body)
    ensures Validate(BookRules(currentYear), body).Next? <==>
              TrimmedField(body, "title") != "" && TrimmedField(body, "author") != ""
              && ("publishedYear" in body ==>
                    IsIntText(body["publishedYear"]) && 0 <= IntValue(body["publishedYear"]) <= currentYear)
  {
    var rules := BookRules(currentYear);
    var c1, c2, c3 := rules[0], rules[1], rules[2];
    assert rules == [c1, c2, c3];
    ShortLastFinishesFirst(c1, c2, c3, body);
    TrimCheckChain("title", NotEmpty(), "Book title is required", body);
    TrimCheckChain("author", NotEmpty(), "Author name is required", body);
    BookYearChain(currentYear, body);
    var e1, e2, e3 := ChainRun(c1, body).0, ChainRun(c2, body).0, ChainRun(c3, body).0;
    assert e1 == [] <==> TrimmedField(body, "title") != "";
    assert e2 == [] <==> TrimmedField(body, "author") != "";
    EmptyConcat3(e3, e1, e2);
  }

  /** Reviews: the rating an integer from 1 to 5 (a missing rating fails). */
  lemma ReviewAccepts(body: Body)
    ensures Validate(ReviewRules(), body).Next? <==>
              "rating" in body && IsIntText(body["rating"]) && 1 <= IntValue(body["rating"]) <= 5
  {
    var rules := ReviewRules();
    var c1, c2 := rules[0], rules[1];
    assert rules == [c1, c2];
    CompletionOrderSameSteps(rules);
    ErrorsTwo(c1, c2, body);
    CheckChain("rating", false, IntIn(1, 5), "Rating must be between 1 and 5", body);
    assert !IsIntText("");
    RunStepsOne("comment", Lookup(body, "comment"), TrimStep);
    var e1, e2 := ChainRun(c1, body).0, ChainRun(c2, body).0;
    assert e2 == [];
    assert e1 == [] <==> "rating" in body && IsIntText(body["rating"]) && 1 <= IntValue(body["rating"]) <= 5;
    assert e1 + e2 == e1;
  }

  /** The review request passed on holds the comment trimmed, when one was
      sent, and the rating as sent. */
  lemma ReviewSanitizes(body: Body)
    ensures Lookup(Sanitized(ReviewRules(), body), "comment") == MapSome(Lookup(body, "comment"), Trim)
    ensures Lookup(Sanitized(ReviewRules(), body), "rating") == Lookup(body, "rating")
  {
    var rules := ReviewRules();
    assert DistinctFields(rules);
    assert Lookup(Sanitized(rules, body), "rating") == Lookup(body, "rating") by {
      SanitizedField(rules, body, 0);
      RunStepsOne("rating", Lookup(body, "rating"), rules[0].steps[0]);
    }
    SanitizedField(rules, body, 1);
    RunStepsOne("comment", Lookup(body, "comment"), TrimStep);
  }

  /** E-mail update: an address after trimming; the request passed on holds
      the normalized form of the trimmed address. */
  lemma EmailUpdateAccepts(isEmail: string -> bool, normalizeEmail: string -> string, body: Body)
    ensures Validate(EmailUpdateRules(isEmail, normalizeEmail), body).Next? <==>
              isEmail(TrimmedField(body, "email"))
    ensures Lookup(Sanitized(EmailUpdateRules(isEmail, normalizeEmail), body), "email")
            == MapSome(MapSome(Lookup(body, "email"), Trim), normalizeEmail)
  {
    var rules := EmailUpdateRules(isEmail, normalizeEmail);
    var c := rules[0];
    var msg := "Please provide a valid email address";
    var v := Lookup(body, "email");
    var w := MapSome(v, Trim);
    var chk, san := Check(isEmail, msg), Sanitize(normalizeEmail);
    assert c.steps == [TrimStep] + ([chk] + [san]);
    RunStepsCons("email", v, TrimStep, [chk] + [san]);
    RunStepsCons("email", w, chk, [san]);
    RunStepsOne("email", w, san);
    assert StepValue(v, TrimStep) == w;
    assert StepErrors("email", v, TrimStep) == [];
    assert StepErrors("email", w, chk) == if isEmail(Text(w)) then [] else [FieldError("email", msg)];
    assert StepErrors("email", w, san) == [];
    assert Text(w) == TrimmedField(body, "email");
    var r := ChainRun(c, body);
    assert r.0 == [] <==> isEmail(TrimmedField(body, "email"));
    assert r.1 == MapSome(w, normalizeEmail);
    assert rules == [c] + [];
    assert rules[1..] == [];
    CompletionOrderSameSteps(rules);
    assert Errors(rules, body) == ErrorsInOrder(rules, body) == r.0 + [];
    SanitizedFirst(c, [], body);
  }

  /** Password update: both validators run, so each failing one reports its
      own message, the length first. */
  lemma PasswordUpdateErrors(body: Body)
    ensures var p := Text(Lookup(body, "password"));
            Errors(PasswordUpdateRules(), body)
            == (if |p| >= 6 then [] else [FieldError("password", "Password must be at least 6 characters long")])
               + (if HasLetterAndDigit(p) then []
                  else [FieldError("password", "Password must contain at least one letter and one number")])
  {
    var rules := PasswordUpdateRules();
    var s1 := Check(MinLength(6), "Password must be at least 6 characters long");
    var s2 := Check(LetterAndDigit(), "Password must contain at least one letter and one number");
    var v := Lookup(body, "password");
    assert [s1, s2] == [s1] + [s2];
    RunStepsCons("password", v, s1, [s2]);
    RunStepsOne("password", v, s2);
    assert rules[1..] == [];
    CompletionOrderSameSteps(rules);
    var e := ChainRun(rules[0], body).0;
    assert Errors(rules, body) == ErrorsInOrder(rules, body) == e + [];
    assert e + [] == e;
  }

  /** A short password without a digit is refused with both messages. */
  lemma ShortLetterOnlyPassword()
    ensures Validate(PasswordUpdateRules(), map["password" := "abc"]).BadRequest?
    ensures |Validate(PasswordUpdateRules(), map["password" := "abc"]).errors| == 2
  {
    PasswordUpdateErrors(map["password" := "abc"]);
    var line := FirstLine("abc");
    assert !HasLetterAndDigit("abc");
  }
}
