/** The resilient roster fetch `getClassParticipants`
    (src/app/api/search/route.ts, lines 132-230).

    The HTTP exchange is not modelled: the outcome of the k-th request the
    fetch would send for one (course, section) pair is given as the k-th
    element of a sequence of attempts; a request past the end of that sequence
    stands for a network error. Sleeping is not modelled either: the fetch
    reports the base delays it would wait, and `Delay` gives the jittered
    delay for a supplied random number. */
module Fetcher {
  import opened Wrappers
  import opened Types
  import opened Catalog
  import Roster

  /** What the HTTP client hands back: a string body together with the page
      it parses to, or a body that is not a string. */
  datatype Body = Html(text: string, page: Roster.Page) | NotText

  /** One request: it fails before any response (timeout, connection error),
      or it yields a status and a body. */
  datatype Attempt = Failed | Response(status: int, body: Body)

  // ---------------------------------------------------------------------------
  // One attempt
  // ---------------------------------------------------------------------------

  /** Whether the source accepts a response: status 200 with a non-empty
      string body whose page has a roster table. */
  predicate Accepted(a: Attempt) {
    a.Response? && a.status == 200 && a.body.Html? && a.body.text != "" &&
    Roster.SelectTable(a.body.page).Some?
  }

  /** An attempt succeeds with the participants of the page, or fails (`None`):
      on a failed request, a status other than 200, an empty or non-string body,
      or a page without a roster table. */
  function AttemptResult(a: Attempt, mkId: string, mkKelas: string): (r: Option<seq<Participant>>)
    ensures r.Some? <==> Accepted(a)
    ensures r.Some? ==> |r.value| < |Roster.SelectTable(a.body.page).value.rows| || r.value == []
  {
    match a
    case Failed => None
    case Response(status, body) =>
      if status != 200 || !body.Html? || body.text == "" then None
      else
        match Roster.SelectTable(body.page)
        case None => None
        case Some(table) =>
          Some(Roster.ExtractParticipants(table, Roster.CourseTitle(body.page, mkId, mkKelas)))
  }

  /** Every participant of a successful attempt carries the page's course
      title and a non-empty student number and name. */
  lemma AttemptResultFields(a: Attempt, mkId: string, mkKelas: string)
    requires AttemptResult(a, mkId, mkKelas).Some?
    ensures forall p :: p in AttemptResult(a, mkId, mkKelas).value ==>
              p.courseName == Roster.CourseTitle(a.body.page, mkId, mkKelas) && p.nrp != "" && p.name != ""
  {
    var table := Roster.SelectTable(a.body.page).value;
    Roster.ParseRowsFields(if |table.rows| == 0 then [] else table.rows[1..],
                           Roster.CourseTitle(a.body.page, mkId, mkKelas));
  }

  /** The body of the `try` block: check the response, choose the table, look
      up the title and extract the rows. */
  method ParseResponse(a: Attempt, mkId: string, mkKelas: string) returns (participants: Option<seq<Participant>>)
    ensures participants == AttemptResult(a, mkId, mkKelas)
  {
    if !a.Response? || a.status != 200 || !a.body.Html? || a.body.text == "" {
      return None;
    }
    var page := a.body.page;
    var table := Roster.SelectTable(page);
    if table.None? {
      return None;
    }
    var courseName := Roster.FindCourseTitle(page, mkId, mkKelas);
    participants := Some(Roster.ExtractParticipants(table.value, courseName));
  }

  // ---------------------------------------------------------------------------
  // The retry loop
  // ---------------------------------------------------------------------------

  /** The outcome of the request with index `i`. */
  function AttemptAt(outcomes: seq<Attempt>, i: nat): Attempt {
    if i < |outcomes| then outcomes[i] else Failed
  }

  /** Whether attempt `i` fails. */
  predicate Fails(outcomes: seq<Attempt>, i: nat) {
    !Accepted(AttemptAt(outcomes, i))
  }

  /** Index of the first successful attempt at or after `from`, among the
      attempts 0 .. MAX_RETRIES; MAX_RETRIES + 1 when all of them fail. */
  function FirstSuccess(outcomes: seq<Attempt>, from: nat): (k: nat)
    requires from <= MAX_RETRIES + 1
    ensures from <= k <= MAX_RETRIES + 1
    decreases MAX_RETRIES + 1 - from
  {
    if from > MAX_RETRIES || !Fails(outcomes, from) then from
    else FirstSuccess(outcomes, from + 1)
  }

  /** The attempts before the one found fail, and the one found succeeds. */
  lemma {:induction false} FirstSuccessSpec(outcomes: seq<Attempt>, from: nat)
    requires from <= MAX_RETRIES + 1
    ensures forall j :: from <= j < FirstSuccess(outcomes, from) ==> Fails(outcomes, j)
    ensures FirstSuccess(outcomes, from) <= MAX_RETRIES ==>
              !Fails(outcomes, FirstSuccess(outcomes, from))
    decreases MAX_RETRIES + 1 - from
  {
    if from <= MAX_RETRIES && Fails(outcomes, from) {
      FirstSuccessSpec(outcomes, from + 1);
      assert FirstSuccess(outcomes, from) == FirstSuccess(outcomes, from + 1);
    }
  }

  /** What the fetch returns: the participants of the first successful
      attempt, or `None` (the source's `null`) when every attempt fails. */
  function Fetch(outcomes: seq<Attempt>, mkId: string, mkKelas: string): Option<seq<Participant>> {
    var k := FirstSuccess(outcomes, 0);
    if k <= MAX_RETRIES then AttemptResult(AttemptAt(outcomes, k), mkId, mkKelas) else None
  }

  /** How many requests the fetch sends. */
  function AttemptsMade(outcomes: seq<Attempt>, mkId: string, mkKelas: string): (n: nat)
    ensures 1 <= n <= MAX_RETRIES + 1
  {
    var k := FirstSuccess(outcomes, 0);
    if k <= MAX_RETRIES then k + 1 else MAX_RETRIES + 1
  }

  /** 2 to the power `n`. */
  function Pow2(n: nat): (p: nat)
    ensures p >= 1
  {
    if n == 0 then 1 else 2 * Pow2(n - 1)
  }

  /** The delay before retry number `retry` (1-based), before jitter. */
  function BaseDelay(retry: nat): (d: nat)
    requires retry >= 1
    ensures d >= RETRY_DELAY
  {
    RETRY_DELAY * Pow2(retry - 1)
  }

  /** The base delays of the first `n` retries, in order. */
  function Backoffs(n: nat): (ds: seq<nat>)
    ensures |ds| == n
    ensures n > 0 ==> ds[0] == RETRY_DELAY
    ensures forall i :: 0 < i < n ==> ds[i] == 2 * ds[i - 1]
  {
    seq(n, i requires 0 <= i < n => BaseDelay(i + 1))
  }

  /** `base` scaled by the jitter factor `0.5 + random * 0.5`, for a random
      number in [0, 1). */
  function Jittered(base: nat, random: real): (d: real)
    requires 0.0 <= random < 1.0
    ensures base as real <= 2.0 * d
    ensures base > 0 ==> d < base as real
  {
    var b := base as real;
    assert 0.0 <= b * random <= b;
    assert base > 0 ==> b * random < b;
    b * (0.5 + random * 0.5)
  }

  /** The delay actually waited before retry `retry`: between half the base
      delay and the base delay. */
  function Delay(retry: nat, random: real): (d: real)
    requires retry >= 1 && 0.0 <= random < 1.0
    ensures BaseDelay(retry) as real <= 2.0 * d < 2.0 * BaseDelay(retry) as real
  {
    Jittered(BaseDelay(retry), random)
  }

  /** The fetch loop: send a request, return the parsed participants on
      success, otherwise count a retry, give up after MAX_RETRIES retries,
      and back off before the next request. */
  method GetClassParticipants(mkId: string, mkKelas: string, outcomes: seq<Attempt>)
    returns (participants: Option<seq<Participant>>, attempts: nat, backoff: seq<nat>)
    ensures participants == Fetch(outcomes, mkId, mkKelas)
    ensures attempts == AttemptsMade(outcomes, mkId, mkKelas)
    ensures backoff == Backoffs(attempts - 1)
  {
    var retries: nat := 0;
    backoff := [];
    while retries <= MAX_RETRIES
      invariant retries <= MAX_RETRIES + 1
      invariant forall j :: 0 <= j < retries ==> Fails(outcomes, j)
      invariant backoff == Backoffs(if retries <= MAX_RETRIES then retries else MAX_RETRIES)
      decreases MAX_RETRIES + 1 - retries
    {
      var result := ParseResponse(AttemptAt(outcomes, retries), mkId, mkKelas);
      if result.Some? {
        FetchFirstSuccess(outcomes, mkId, mkKelas, retries);
        participants, attempts := result, retries + 1;
        return;
      }
      retries := retries + 1;
      if retries <= MAX_RETRIES {
        assert Backoffs(retries - 1) + [BaseDelay(retries)] == Backoffs(retries);
        backoff := backoff + [BaseDelay(retries)];
      }
    }
    FetchNoneIff(outcomes, mkId, mkKelas);
    participants, attempts := None, MAX_RETRIES + 1;
  }

  // ---------------------------------------------------------------------------
  // Properties of the fetch
  // ---------------------------------------------------------------------------

  /** The fetch yields `None` exactly when all MAX_RETRIES + 1 attempts fail. */
  lemma FetchNoneIff(outcomes: seq<Attempt>, mkId: string, mkKelas: string)
    ensures Fetch(outcomes, mkId, mkKelas).None? <==>
            forall j :: 0 <= j <= MAX_RETRIES ==> Fails(outcomes, j)
  {
    FirstSuccessSpec(outcomes, 0);
  }

  /** The fetch sends between one and MAX_RETRIES + 1 requests; every request
      but the last fails, and the result is that of the last request. */
  lemma FetchLastAttempt(outcomes: seq<Attempt>, mkId: string, mkKelas: string)
    ensures var n := AttemptsMade(outcomes, mkId, mkKelas);
            && 1 <= n <= MAX_RETRIES + 1
            && (forall j :: 0 <= j < n - 1 ==> Fails(outcomes, j))
            && (Fetch(outcomes, mkId, mkKelas).Some? ==>
                  Fetch(outcomes, mkId, mkKelas) == AttemptResult(AttemptAt(outcomes, n - 1), mkId, mkKelas))
  {
    FirstSuccessSpec(outcomes, 0);
  }

  /** The fetch returns the participants of the first attempt that succeeds. */
  lemma FetchFirstSuccess(outcomes: seq<Attempt>, mkId: string, mkKelas: string, k: nat)
    requires k <= MAX_RETRIES && !Fails(outcomes, k)
    requires forall j :: 0 <= j < k ==> Fails(outcomes, j)
    ensures Fetch(outcomes, mkId, mkKelas) == AttemptResult(AttemptAt(outcomes, k), mkId, mkKelas)
    ensures AttemptsMade(outcomes, mkId, mkKelas) == k + 1
  {
    FirstSuccessSpec(outcomes, 0);
  }

  /** A fetch whose first MAX_RETRIES requests fail and whose last succeeds
      still returns the roster of the last one, after waiting all the backoff
      delays. */
  lemma SucceedsOnLastAttempt(outcomes: seq<Attempt>, mkId: string, mkKelas: string, ps: seq<Participant>)
    requires forall j :: 0 <= j < MAX_RETRIES ==> Fails(outcomes, j)
    requires AttemptResult(AttemptAt(outcomes, MAX_RETRIES), mkId, mkKelas) == Some(ps)
    ensures Fetch(outcomes, mkId, mkKelas) == Some(ps)
    ensures AttemptsMade(outcomes, mkId, mkKelas) == MAX_RETRIES + 1
    ensures Backoffs(AttemptsMade(outcomes, mkId, mkKelas) - 1) == [2000, 4000, 8000]
  {
    FetchFirstSuccess(outcomes, mkId, mkKelas, MAX_RETRIES);
    assert Backoffs(3) == [BaseDelay(1), BaseDelay(2), BaseDelay(3)];
  }

  /** Only the first MAX_RETRIES + 1 outcomes matter: the fetch never sends a
      fifth request. */
  lemma {:induction false} OnlyFirstAttemptsMatter(o1: seq<Attempt>, o2: seq<Attempt>, mkId: string, mkKelas: string, from: nat)
    requires from <= MAX_RETRIES + 1
    requires forall j :: 0 <= j <= MAX_RETRIES ==> AttemptAt(o1, j) == AttemptAt(o2, j)
    ensures FirstSuccess(o1, from) == FirstSuccess(o2, from)
    ensures from == 0 ==> Fetch(o1, mkId, mkKelas) == Fetch(o2, mkId, mkKelas)
    ensures from == 0 ==> AttemptsMade(o1, mkId, mkKelas) == AttemptsMade(o2, mkId, mkKelas)
    decreases MAX_RETRIES + 1 - from
  {
    if from <= MAX_RETRIES {
      OnlyFirstAttemptsMatter(o1, o2, mkId, mkKelas, from + 1);
    }
  }

  /** Base delays double from one retry to the next. */
  lemma BaseDelayDoubles(retry: nat)
    requires retry >= 1
    ensures BaseDelay(retry + 1) == 2 * BaseDelay(retry)
  {
  }

  function Sum(ds: seq<nat>): nat {
    if |ds| == 0 then 0 else Sum(ds[..|ds| - 1]) + ds[|ds| - 1]
  }

  /** The base delays of `n` retries add up to RETRY_DELAY * (2^n - 1). */
  lemma {:induction false} BackoffTotal(n: nat)
    ensures Sum(Backoffs(n)) == RETRY_DELAY * (Pow2(n) - 1)
  {
    if n > 0 {
      BackoffTotal(n - 1);
      assert Backoffs(n)[..n - 1] == Backoffs(n - 1);
    }
  }

  /** A fetch whose attempts 0 ... MAX_RETRIES all fail returns `None` after
      MAX_RETRIES + 1 requests, backs off the base delays 2000, 4000 and 8000,
      and with jitter waits at least 7 and less than 14 seconds in total. */
  lemma ExhaustedWait(outcomes: seq<Attempt>, mkId: string, mkKelas: string, r1: real, r2: real, r3: real)
    requires forall j :: 0 <= j <= MAX_RETRIES ==> Fails(outcomes, j)
    requires 0.0 <= r1 < 1.0 && 0.0 <= r2 < 1.0 && 0.0 <= r3 < 1.0
    ensures Fetch(outcomes, mkId, mkKelas) == None
    ensures AttemptsMade(outcomes, mkId, mkKelas) == MAX_RETRIES + 1
    ensures Backoffs(AttemptsMade(outcomes, mkId, mkKelas) - 1) == [BaseDelay(1), BaseDelay(2), BaseDelay(3)]
    ensures 7000.0 <= Delay(1, r1) + Delay(2, r2) + Delay(3, r3) < 14000.0
  {
    FetchNoneIff(outcomes, mkId, mkKelas);
    FirstSuccessSpec(outcomes, 0);
    BackoffTotal(3);
    assert Backoffs(3) == [BaseDelay(1), BaseDelay(2), BaseDelay(3)];
  }
}
