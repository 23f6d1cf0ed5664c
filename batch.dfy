/** Matching one student against the rosters of a batch of courses,
    `searchBatch` (src/app/api/search/route.ts, lines 243-281).

    For each course in order, the source fetches the roster of every section
    concurrently and awaits them all with `Promise.all`, which keeps the
    sections' order; the model fetches them one after the other, which gives
    the same results in the same order. */
module Batch {
  import opened Wrappers
  import opened Types
  import opened Catalog
  import Fetcher
  import Filter

  /** What the roster endpoint answers, request by request, for a (course,
      section) pair. */
  type Upstream = (string, string) -> seq<Fetcher.Attempt>

  /** `COURSE_CREDITS[mkId] || 0`. */
  function Credits(mkId: string): nat {
    if mkId in COURSE_CREDITS then COURSE_CREDITS[mkId] else 0
  }

  /** `participants.find(p => p.nrp === nrp)`: the first participant with the
      student number. */
  function Find(ps: seq<Participant>, nrp: string): (r: Option<Participant>)
    ensures r.Some? ==> r.value in ps && r.value.nrp == nrp
  {
    if |ps| == 0 then None
    else if ps[0].nrp == nrp then Some(ps[0])
    else Find(ps[1..], nrp)
  }

  /** The search finds nothing exactly when no participant has the student
      number, and otherwise finds the first that has it. */
  lemma FindSpec(ps: seq<Participant>, nrp: string)
    ensures Find(ps, nrp).None? <==> forall p :: p in ps ==> p.nrp != nrp
    ensures forall k :: 0 <= k < |ps| && ps[k].nrp == nrp && (forall j :: 0 <= j < k ==> ps[j].nrp != nrp)
                    ==> Find(ps, nrp) == Some(ps[k])
  {
    FindNone(ps, nrp);
    FindFirst(ps, nrp);
  }

  lemma {:induction false} FindNone(ps: seq<Participant>, nrp: string)
    ensures Find(ps, nrp).None? <==> forall p :: p in ps ==> p.nrp != nrp
  {
    if |ps| > 0 && ps[0].nrp != nrp {
      FindNone(ps[1..], nrp);
      assert forall p :: p in ps && p != ps[0] ==> p in ps[1..];
    }
  }

  lemma {:induction false} FindFirst(ps: seq<Participant>, nrp: string)
    ensures forall k :: 0 <= k < |ps| && ps[k].nrp == nrp && (forall j :: 0 <= j < k ==> ps[j].nrp != nrp)
                    ==> Find(ps, nrp) == Some(ps[k])
  {
    if |ps| > 0 && ps[0].nrp != nrp {
      FindFirst(ps[1..], nrp);
      assert forall k :: 1 <= k < |ps| ==> ps[1..][k - 1] == ps[k];
    }
  }

  /** What one section contributes, given what its fetch returned: a result
      when the fetch succeeded and the roster lists the student. */
  function SectionMatch(mkId: string, kelas: string, nrp: string, roster: Option<seq<Participant>>)
    : Option<ClassResult>
  {
    match roster
    case None => None
    case Some(ps) =>
      match Find(ps, nrp)
      case None => None
      case Some(p) => Some(ClassResult(mkId, SEMESTER, kelas, p.name, p.courseName, Credits(mkId)))
  }

  /** A section yields a result exactly when its roster was fetched and lists
      the student; the result names the course, the section, the fixed
      semester and the course's credits, and copies the name and course title
      of the first roster entry with the student number. */
  lemma SectionMatchSpec(mkId: string, kelas: string, nrp: string, roster: Option<seq<Participant>>)
    ensures var r := SectionMatch(mkId, kelas, nrp, roster);
            && (r.Some? <==> roster.Some? && exists p :: p in roster.value && p.nrp == nrp)
            && (r.Some? ==>
                  && r.value.mkId == mkId && r.value.kelas == kelas
                  && r.value.semester == SEMESTER && r.value.credits == Credits(mkId)
                  && Find(roster.value, nrp) == Some(Participant(nrp, r.value.name, r.value.courseName)))
  {
    if roster.Some? {
      FindSpec(roster.value, nrp);
    }
  }

  /** What one section contributes when its roster is fetched from `upstream`. */
  function SectionResult(mkId: string, kelas: string, nrp: string, upstream: Upstream): (r: Option<ClassResult>)
    ensures r.Some? ==> Fetcher.Fetch(upstream(mkId, kelas), mkId, kelas).Some?
    ensures r.Some? ==> && r.value.mkId == mkId && r.value.kelas == kelas
                        && r.value.semester == SEMESTER && r.value.credits == Credits(mkId)
  {
    SectionMatchSpec(mkId, kelas, nrp, Fetcher.Fetch(upstream(mkId, kelas), mkId, kelas));
    SectionMatch(mkId, kelas, nrp, Fetcher.Fetch(upstream(mkId, kelas), mkId, kelas))
  }

  /** The per-section outcomes of one course, in section order (the array
      `Promise.all` yields). */
  function SectionResults(mkId: string, classes: seq<string>, nrp: string, upstream: Upstream)
    : (rs: seq<Option<ClassResult>>)
    ensures |rs| == |classes|
    ensures forall j :: 0 <= j < |classes| ==> rs[j] == SectionResult(mkId, classes[j], nrp, upstream)
  {
    seq(|classes|, j requires 0 <= j < |classes| => SectionResult(mkId, classes[j], nrp, upstream))
  }

  /** The results of one course. */
  function CourseResults(mkId: string, classes: seq<string>, nrp: string, upstream: Upstream): seq<ClassResult> {
    Filter.Present(SectionResults(mkId, classes, nrp, upstream))
  }

  /** The results of a batch: the results of its courses, in course order. */
  function BatchResults(mkIds: seq<string>, classes: seq<string>, nrp: string, upstream: Upstream)
    : seq<ClassResult>
  {
    if |mkIds| == 0 then []
    else BatchResults(mkIds[..|mkIds| - 1], classes, nrp, upstream)
         + CourseResults(mkIds[|mkIds| - 1], classes, nrp, upstream)
  }

  /** The roster requests sent for one course. */
  function CourseRequests(mkId: string, classes: seq<string>, upstream: Upstream): nat {
    if |classes| == 0 then 0
    else
      var kelas := classes[|classes| - 1];
      CourseRequests(mkId, classes[..|classes| - 1], upstream)
      + Fetcher.AttemptsMade(upstream(mkId, kelas), mkId, kelas)
  }

  /** The roster requests sent for a batch. */
  function BatchRequests(mkIds: seq<string>, classes: seq<string>, upstream: Upstream): nat {
    if |mkIds| == 0 then 0
    else BatchRequests(mkIds[..|mkIds| - 1], classes, upstream)
         + CourseRequests(mkIds[|mkIds| - 1], classes, upstream)
  }

  /** One section, as the source's per-section callback runs it: fetch the
      roster and, when it lists the student, build the result. */
  method SearchSection(mkId: string, kelas: string, nrp: string, upstream: Upstream)
    returns (result: Option<ClassResult>, attempts: nat)
    ensures result == SectionResult(mkId, kelas, nrp, upstream)
    ensures attempts == Fetcher.AttemptsMade(upstream(mkId, kelas), mkId, kelas)
  {
    var participants, sent, _ := Fetcher.GetClassParticipants(mkId, kelas, upstream(mkId, kelas));
    attempts := sent;
    result := None;
    if participants.Some? {
      var found := Find(participants.value, nrp);
      if found.Some? {
        result := Some(ClassResult(mkId, SEMESTER, kelas, found.value.name, found.value.courseName, Credits(mkId)));
      }
    }
  }

  /** One course: every section in order, then the matches kept in section
      order. */
  method SearchCourse(mkId: string, classes: seq<string>, nrp: string, upstream: Upstream)
    returns (found: seq<ClassResult>, sent: nat)
    ensures found == CourseResults(mkId, classes, nrp, upstream)
    ensures sent == CourseRequests(mkId, classes, upstream)
  {
    var results: seq<Option<ClassResult>> := [];
    sent := 0;
    for j := 0 to |classes|
      invariant results == SectionResults(mkId, classes[..j], nrp, upstream)
      invariant sent == CourseRequests(mkId, classes[..j], upstream)
    {
      var result, attempts := SearchSection(mkId, classes[j], nrp, upstream);
      SectionResultsStep(mkId, classes, j, nrp, upstream);
      CourseRequestsStep(mkId, classes, j, upstream);
      results := results + [result];
      sent := sent + attempts;
    }
    assert classes[..|classes|] == classes;
    found := Filter.Present(results);
  }

  lemma SectionResultsStep(mkId: string, classes: seq<string>, j: nat, nrp: string, upstream: Upstream)
    requires j < |classes|
    ensures SectionResults(mkId, classes[..j + 1], nrp, upstream)
            == SectionResults(mkId, classes[..j], nrp, upstream) + [SectionResult(mkId, classes[j], nrp, upstream)]
  {
    assert classes[..j + 1][..j] == classes[..j];
  }

  lemma CourseRequestsStep(mkId: string, classes: seq<string>, j: nat, upstream: Upstream)
    requires j < |classes|
    ensures CourseRequests(mkId, classes[..j + 1], upstream)
            == CourseRequests(mkId, classes[..j], upstream)
               + Fetcher.AttemptsMade(upstream(mkId, classes[j]), mkId, classes[j])
  {
    assert classes[..j + 1][..j] == classes[..j];
  }

  /** The batch loop as the source runs it: for each course, fetch every
      section, keep the matches in section order and append them. */
  method SearchBatch(mkIds: seq<string>, classes: seq<string>, nrp: string, upstream: Upstream)
    returns (foundClasses: seq<ClassResult>, requests: nat)
    ensures foundClasses == BatchResults(mkIds, classes, nrp, upstream)
    ensures requests == BatchRequests(mkIds, classes, upstream)
  {
    foundClasses := [];
    requests := 0;
    for i := 0 to |mkIds|
      invariant foundClasses == BatchResults(mkIds[..i], classes, nrp, upstream)
      invariant requests == BatchRequests(mkIds[..i], classes, upstream)
    {
      var found, sent := SearchCourse(mkIds[i], classes, nrp, upstream);
      assert mkIds[..i + 1][..i] == mkIds[..i];
      foundClasses := foundClasses + found;
      requests := requests + sent;
    }
    assert mkIds[..|mkIds|] == mkIds;
  }

  // ---------------------------------------------------------------------------
  // Where each result comes from
  // ---------------------------------------------------------------------------

  /** The outcomes of a batch, course by section. */
  function Grid(mkIds: seq<string>, classes: seq<string>, nrp: string, upstream: Upstream)
    : (g: seq<seq<Option<ClassResult>>>)
    ensures |g| == |mkIds|
    ensures forall i :: 0 <= i < |mkIds| ==> g[i] == SectionResults(mkIds[i], classes, nrp, upstream)
  {
    seq(|mkIds|, i requires 0 <= i < |mkIds| => SectionResults(mkIds[i], classes, nrp, upstream))
  }

  /** The results of a batch are the present outcomes of its grid, row by
      row. */
  lemma {:induction false} BatchIsFlat(mkIds: seq<string>, classes: seq<string>, nrp: string, upstream: Upstream)
    ensures BatchResults(mkIds, classes, nrp, upstream) == Filter.FlatPresent(Grid(mkIds, classes, nrp, upstream))
  {
    if |mkIds| > 0 {
      var n := |mkIds| - 1;
      BatchIsFlat(mkIds[..n], classes, nrp, upstream);
      assert Grid(mkIds, classes, nrp, upstream)[..n] == Grid(mkIds[..n], classes, nrp, upstream);
    }
  }

  /** The outcome at row `i` and column `j` of the grid is that of course
      `i` and section `j`. */
  lemma GridCell(mkIds: seq<string>, classes: seq<string>, nrp: string, upstream: Upstream, i: nat, j: nat)
    requires i < |mkIds| && j < |Grid(mkIds, classes, nrp, upstream)[i]|
    ensures j < |classes|
    ensures Grid(mkIds, classes, nrp, upstream)[i][j] == SectionResult(mkIds[i], classes[j], nrp, upstream)
  {
  }

  // ---------------------------------------------------------------------------
  // Properties of a batch
  // ---------------------------------------------------------------------------

  /** Scanning two lists of courses one after the other gives the results of
      the concatenated list. */
  lemma {:induction false} BatchAppend(a: seq<string>, b: seq<string>, classes: seq<string>, nrp: string, upstream: Upstream)
    ensures BatchResults(a + b, classes, nrp, upstream)
            == BatchResults(a, classes, nrp, upstream) + BatchResults(b, classes, nrp, upstream)
    decreases |b|
  {
    if |b| == 0 {
      assert a + b == a;
    } else {
      var n := |b| - 1;
      assert (a + b)[..|a + b| - 1] == a + b[..n];
      assert (a + b)[|a + b| - 1] == b[n];
      BatchAppend(a, b[..n], classes, nrp, upstream);
      var course := CourseResults(b[n], classes, nrp, upstream);
      var ra := BatchResults(a, classes, nrp, upstream);
      var rb := BatchResults(b[..n], classes, nrp, upstream);
      calc {
        BatchResults(a + b, classes, nrp, upstream);
        BatchResults(a + b[..n], classes, nrp, upstream) + course;
        (ra + rb) + course;
        { ConcatAssoc(ra, rb, course); }
        ra + (rb + course);
        ra + BatchResults(b, classes, nrp, upstream);
      }
    }
  }

  lemma ConcatAssoc<T>(x: seq<T>, y: seq<T>, z: seq<T>)
    ensures (x + y) + z == x + (y + z)
  {
  }

  /** The same for the number of requests. */
  lemma {:induction false} BatchRequestsAppend(a: seq<string>, b: seq<string>, classes: seq<string>, upstream: Upstream)
    ensures BatchRequests(a + b, classes, upstream)
            == BatchRequests(a, classes, upstream) + BatchRequests(b, classes, upstream)
    decreases |b|
  {
    if |b| == 0 {
      assert a + b == a;
    } else {
      var n := |b| - 1;
      assert (a + b)[..|a + b| - 1] == a + b[..n];
      assert (a + b)[|a + b| - 1] == b[n];
      BatchRequestsAppend(a, b[..n], classes, upstream);
    }
  }

  /** A result is reported exactly when some (course, section) of the batch
      had a successful fetch whose roster lists the student: a failed section
      removes only its own result. */
  lemma BatchMembership(mkIds: seq<string>, classes: seq<string>, nrp: string, upstream: Upstream, r: ClassResult)
    ensures r in BatchResults(mkIds, classes, nrp, upstream) <==>
            exists i, j :: 0 <= i < |mkIds| && 0 <= j < |classes| &&
                           SectionResult(mkIds[i], classes[j], nrp, upstream) == Some(r)
  {
    var g := Grid(mkIds, classes, nrp, upstream);
    BatchIsFlat(mkIds, classes, nrp, upstream);
    var rs := Filter.FlatPresent(g);
    if r in rs {
      var pos := Filter.GridPositions(g);
      var k :| 0 <= k < |rs| && rs[k] == r;
      GridCell(mkIds, classes, nrp, upstream, pos[k].0, pos[k].1);
    }
    if exists i, j :: 0 <= i < |mkIds| && 0 <= j < |classes| &&
                      SectionResult(mkIds[i], classes[j], nrp, upstream) == Some(r) {
      var i, j :| 0 <= i < |mkIds| && 0 <= j < |classes| &&
                  SectionResult(mkIds[i], classes[j], nrp, upstream) == Some(r);
      Filter.FlatPresentKeeps(g, i, j);
    }
  }

  /** Every result names a course of the batch and one of the sections, the
      fixed semester, the course's credits, and the student's roster entry:
      the first entry with the student number in the section's fetched roster. */
  lemma BatchResultShape(mkIds: seq<string>, classes: seq<string>, nrp: string, upstream: Upstream, r: ClassResult)
    requires r in BatchResults(mkIds, classes, nrp, upstream)
    ensures r.mkId in mkIds && r.kelas in classes
    ensures r.semester == SEMESTER && r.credits == Credits(r.mkId)
    ensures Fetcher.Fetch(upstream(r.mkId, r.kelas), r.mkId, r.kelas).Some?
    ensures Find(Fetcher.Fetch(upstream(r.mkId, r.kelas), r.mkId, r.kelas).value, nrp)
            == Some(Participant(nrp, r.name, r.courseName))
  {
    BatchMembership(mkIds, classes, nrp, upstream, r);
    var i, j :| 0 <= i < |mkIds| && 0 <= j < |classes| &&
                SectionResult(mkIds[i], classes[j], nrp, upstream) == Some(r);
    SectionMatchSpec(mkIds[i], classes[j], nrp, Fetcher.Fetch(upstream(mkIds[i], classes[j]), mkIds[i], classes[j]));
  }

  /** A batch reports at most |mkIds| * |classes| results in total. */
  lemma {:induction false} BatchLength(mkIds: seq<string>, classes: seq<string>, nrp: string, upstream: Upstream)
    ensures |BatchResults(mkIds, classes, nrp, upstream)| <= |mkIds| * |classes|
  {
    if |mkIds| > 0 {
      BatchLength(mkIds[..|mkIds| - 1], classes, nrp, upstream);
      assert (|mkIds| - 1) * |classes| + |classes| == |mkIds| * |classes|;
    }
  }

  /** First position of `x` in `s`. */
  function IndexOf<T(==)>(s: seq<T>, x: T): (k: nat)
    requires x in s
    ensures k < |s| && s[k] == x
    ensures forall j :: 0 <= j < k ==> s[j] != x
  {
    if s[0] == x then 0
    else
      var k := IndexOf(s[1..], x);
      assert forall j :: 1 <= j <= k ==> s[j] == s[1..][j - 1];
      k + 1
  }

  /** In a sequence without repetitions, each element's first position is
      its position. */
  lemma IndexOfDistinct<T>(s: seq<T>, k: nat)
    requires Distinct(s) && k < |s|
    ensures IndexOf(s, s[k]) == k
  {
    var m := IndexOf(s, s[k]);
    assert s[m] == s[k];
  }

  /** `r1` comes from an earlier course than `r2`, or from the same course and
      an earlier section. */
  predicate Before(mkIds: seq<string>, classes: seq<string>, r1: ClassResult, r2: ClassResult)
    requires r1.mkId in mkIds && r2.mkId in mkIds && r1.kelas in classes && r2.kelas in classes
  {
    IndexOf(mkIds, r1.mkId) < IndexOf(mkIds, r2.mkId) ||
    (r1.mkId == r2.mkId && IndexOf(classes, r1.kelas) < IndexOf(classes, r2.kelas))
  }

  /** The results are ordered by course and then by section, in input order,
      and no (course, section) pair occurs twice. */
  predicate InScanOrder(mkIds: seq<string>, classes: seq<string>, rs: seq<ClassResult>) {
    forall i, j :: 0 <= i < j < |rs| ==>
      && rs[i].mkId in mkIds && rs[j].mkId in mkIds
      && rs[i].kelas in classes && rs[j].kelas in classes
      && Before(mkIds, classes, rs[i], rs[j])
      && (rs[i].mkId, rs[i].kelas) != (rs[j].mkId, rs[j].kelas)
  }

  /** With distinct course codes and section labels, a batch lists its
      results in scan order. */
  lemma BatchOrdered(mkIds: seq<string>, classes: seq<string>, nrp: string, upstream: Upstream)
    requires Distinct(mkIds) && Distinct(classes)
    ensures InScanOrder(mkIds, classes, BatchResults(mkIds, classes, nrp, upstream))
  {
    var g := Grid(mkIds, classes, nrp, upstream);
    BatchIsFlat(mkIds, classes, nrp, upstream);
    var rs := Filter.FlatPresent(g);
    var pos := Filter.GridPositions(g);
    forall i | 0 <= i < |rs|
      ensures pos[i].0 < |mkIds| && pos[i].1 < |classes|
      ensures rs[i].mkId == mkIds[pos[i].0] && rs[i].kelas == classes[pos[i].1]
      ensures IndexOf(mkIds, rs[i].mkId) == pos[i].0 && IndexOf(classes, rs[i].kelas) == pos[i].1
    {
      GridCell(mkIds, classes, nrp, upstream, pos[i].0, pos[i].1);
      CellOrigin(mkIds, classes, nrp, upstream, pos[i].0, pos[i].1);
    }
    OrderedByPositions(mkIds, classes, rs, pos);
  }

  /** A result found at course `a` and section `b` names them, and with
      distinct inputs these are the first positions of its course and
      section. */
  lemma CellOrigin(mkIds: seq<string>, classes: seq<string>, nrp: string, upstream: Upstream, a: nat, b: nat)
    requires Distinct(mkIds) && Distinct(classes) && a < |mkIds| && b < |classes|
    requires SectionResult(mkIds[a], classes[b], nrp, upstream).Some?
    ensures var r := SectionResult(mkIds[a], classes[b], nrp, upstream).value;
            && r.mkId == mkIds[a] && r.kelas == classes[b]
            && IndexOf(mkIds, r.mkId) == a && IndexOf(classes, r.kelas) == b
  {
    SectionMatchSpec(mkIds[a], classes[b], nrp, Fetcher.Fetch(upstream(mkIds[a], classes[b]), mkIds[a], classes[b]));
    IndexOfDistinct(mkIds, a);
    IndexOfDistinct(classes, b);
  }

  /** Results whose origins increase lexicographically are in scan order. */
  lemma OrderedByPositions(mkIds: seq<string>, classes: seq<string>, rs: seq<ClassResult>, pos: seq<(nat, nat)>)
    requires |pos| == |rs|
    requires forall i :: 0 <= i < |rs| ==>
               && pos[i].0 < |mkIds| && pos[i].1 < |classes|
               && rs[i].mkId == mkIds[pos[i].0] && rs[i].kelas == classes[pos[i].1]
               && IndexOf(mkIds, rs[i].mkId) == pos[i].0 && IndexOf(classes, rs[i].kelas) == pos[i].1
    requires forall i, j :: 0 <= i < j < |pos| ==>
               pos[i].0 < pos[j].0 || (pos[i].0 == pos[j].0 && pos[i].1 < pos[j].1)
    ensures InScanOrder(mkIds, classes, rs)
  {
  }

  /** One course sends between |classes| and (MAX_RETRIES + 1) * |classes|
      roster requests in total. */
  lemma {:induction false} CourseRequestBounds(mkId: string, classes: seq<string>, upstream: Upstream)
    ensures |classes| <= CourseRequests(mkId, classes, upstream) <= (MAX_RETRIES + 1) * |classes|
  {
    if |classes| > 0 {
      CourseRequestBounds(mkId, classes[..|classes| - 1], upstream);
    }
  }

  lemma {:induction false} BatchRequestBounds(mkIds: seq<string>, classes: seq<string>, upstream: Upstream)
    ensures |mkIds| * |classes| <= BatchRequests(mkIds, classes, upstream)
                                <= (MAX_RETRIES + 1) * (|mkIds| * |classes|)
  {
    if |mkIds| > 0 {
      var n := |mkIds| - 1;
      BatchRequestBounds(mkIds[..n], classes, upstream);
      CourseRequestBounds(mkIds[n], classes, upstream);
      MulSucc(n, |classes|);
    }
  }

  lemma MulSucc(n: nat, c: nat)
    ensures (n + 1) * c == n * c + c
  {
  }

  /** The worked example: one course, two sections; section A lists the
      student and section B is empty. The scan yields exactly one result,
      carrying the four credits of EF4101. */
  lemma ExampleScan(upstream: Upstream)
    requires Fetcher.Fetch(upstream("EF4101", "A"), "EF4101", "A")
             == Some([Participant("5025211015", "Jane Doe", "Dasar Pemrograman")])
    requires Fetcher.Fetch(upstream("EF4101", "B"), "EF4101", "B") == Some([])
    ensures BatchResults(["EF4101"], ["A", "B"], "5025211015", upstream)
            == [ClassResult("EF4101", 2, "A", "Jane Doe", "Dasar Pemrograman", 4)]
  {
    var hit := ClassResult("EF4101", 2, "A", "Jane Doe", "Dasar Pemrograman", 4);
    ExampleSections(upstream);
    SectionPair("EF4101", "A", "B", "5025211015", upstream);
    Filter.PresentOfPair(hit);
    SingleCourse("EF4101", ["A", "B"], "5025211015", upstream);
  }

  lemma SingleCourse(mkId: string, classes: seq<string>, nrp: string, upstream: Upstream)
    ensures BatchResults([mkId], classes, nrp, upstream) == CourseResults(mkId, classes, nrp, upstream)
  {
    assert [mkId][..0] == [];
  }

  lemma SectionPair(mkId: string, k1: string, k2: string, nrp: string, upstream: Upstream)
    ensures SectionResults(mkId, [k1, k2], nrp, upstream)
            == [SectionResult(mkId, k1, nrp, upstream), SectionResult(mkId, k2, nrp, upstream)]
  {
  }

  lemma ExampleSections(upstream: Upstream)
    requires Fetcher.Fetch(upstream("EF4101", "A"), "EF4101", "A")
             == Some([Participant("5025211015", "Jane Doe", "Dasar Pemrograman")])
    requires Fetcher.Fetch(upstream("EF4101", "B"), "EF4101", "B") == Some([])
    ensures SectionResult("EF4101", "A", "5025211015", upstream)
            == Some(ClassResult("EF4101", 2, "A", "Jane Doe", "Dasar Pemrograman", 4))
    ensures SectionResult("EF4101", "B", "5025211015", upstream) == None
  {
    ExampleHit(upstream);
    ExampleMiss(upstream);
  }

  lemma ExampleHit(upstream: Upstream)
    requires Fetcher.Fetch(upstream("EF4101", "A"), "EF4101", "A")
             == Some([Participant("5025211015", "Jane Doe", "Dasar Pemrograman")])
    ensures SectionResult("EF4101", "A", "5025211015", upstream)
            == Some(ClassResult("EF4101", 2, "A", "Jane Doe", "Dasar Pemrograman", 4))
  {
    var ps := [Participant("5025211015", "Jane Doe", "Dasar Pemrograman")];
    MatchFirst("EF4101", "A", "5025211015", ps);
    ExampleCredits();
  }

  lemma ExampleMiss(upstream: Upstream)
    requires Fetcher.Fetch(upstream("EF4101", "B"), "EF4101", "B") == Some([])
    ensures SectionResult("EF4101", "B", "5025211015", upstream) == None
  {
  }

  /** A roster whose first entry has the student number matches that entry. */
  lemma MatchFirst(mkId: string, kelas: string, nrp: string, ps: seq<Participant>)
    requires |ps| > 0 && ps[0].nrp == nrp
    ensures SectionMatch(mkId, kelas, nrp, Some(ps))
            == Some(ClassResult(mkId, SEMESTER, kelas, ps[0].name, ps[0].courseName, Credits(mkId)))
  {
  }

  lemma ExampleCredits()
    ensures Credits("EF4101") == 4
  {
    CreditsOfEF4101();
  }
}
