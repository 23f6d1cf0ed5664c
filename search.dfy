/** The search endpoint `POST` (src/app/api/search/route.ts, lines 283-336):
    validate the request, probe the session once, then scan the whole catalog
    in batches of CHUNK_SIZE course codes and answer with every match found.

    The request body is given already decoded: either it is not valid JSON
    (or is JSON `null`, whose destructuring throws the same way), or it is a
    JSON value whose `nrp` and `sessionId` fields are strings or absent (an
    array or a number has neither field). The outcome of the session probe is given as a `Probe`, and the
    roster endpoint, as seen with this session, as an `Upstream`. */
module Search {
  import opened Wrappers
  import opened Types
  import opened Catalog
  import Session
  import Batch

  datatype Request = Malformed | Json(nrp: Option<string>, sessionId: Option<string>)

  /** What the endpoint answers: the results (status 200), a missing field
      (400), a rejected session (401), or a failure (500). */
  datatype Reply = Results(results: seq<ClassResult>) | MissingFields | InvalidSession | Failure

  function Status(reply: Reply): int {
    match reply
    case Results(_) => 200
    case MissingFields => 400
    case InvalidSession => 401
    case Failure => 500
  }

  /** A field passes the `!value` test: present and not the empty string. */
  predicate Truthy(v: Option<string>) {
    v.Some? && v.value != ""
  }

  // ---------------------------------------------------------------------------
  // Batches
  // ---------------------------------------------------------------------------

  function Min(a: int, b: int): int {
    if a <= b then a else b
  }

  /** Index of the first element of chunk `i`: `i * size`, written as a sum
      so that the proofs about chunks stay linear. */
  function Offset(i: nat, size: nat): nat {
    if i == 0 then 0 else Offset(i - 1, size) + size
  }

  lemma {:induction false} OffsetIsProduct(i: nat, size: nat)
    ensures Offset(i, size) == i * size
  {
    if i > 0 {
      OffsetIsProduct(i - 1, size);
      assert i * size == (i - 1) * size + size;
    }
  }

  lemma {:induction false} OffsetMonotone(i: nat, j: nat, size: nat)
    requires i <= j
    ensures Offset(i, size) <= Offset(j, size)
  {
    if i < j {
      OffsetMonotone(i, j - 1, size);
    }
  }

  /** Number of chunks: the length divided by the chunk size, rounded up
      (`Math.ceil`). */
  function ChunkCount(n: nat, size: nat): (c: nat)
    requires size > 0
    ensures Offset(c, size) >= n
    ensures c > 0 ==> Offset(c - 1, size) < n
  {
    var c := (n + size - 1) / size;
    var r := (n + size - 1) % size;
    assert c * size == n + size - 1 - r;
    assert c > 0 ==> (c - 1) * size == c * size - size;
    OffsetIsProduct(c, size);
    OffsetIsProduct(if c > 0 then c - 1 else 0, size);
    c
  }

  /** Chunk number `i`: the slice from `i * size` up to `(i + 1) * size`,
      cut at the end of the sequence. */
  function Chunk<T>(s: seq<T>, size: nat, i: nat): (c: seq<T>)
    requires size > 0 && i < ChunkCount(|s|, size)
    ensures 0 < |c| <= size
    ensures Offset(i, size) < |s| && c == s[Offset(i, size) .. Min(Offset(i + 1, size), |s|)]
  {
    OffsetMonotone(i, ChunkCount(|s|, size) - 1, size);
    s[Offset(i, size) .. Min(Offset(i + 1, size), |s|)]
  }

  /** The sequence cut into consecutive chunks of `size` elements; only the
      last may be shorter. */
  function Chunks<T>(s: seq<T>, size: nat): (cs: seq<seq<T>>)
    requires size > 0
    ensures |cs| == ChunkCount(|s|, size)
    ensures forall i :: 0 <= i < |cs| ==> cs[i] == Chunk(s, size, i)
    ensures forall i :: 0 <= i < |cs| ==> 0 < |cs[i]| <= size
    ensures forall i :: 0 <= i < |cs| - 1 ==> |cs[i]| == size
  {
    var n := ChunkCount(|s|, size);
    var cs := seq(n, i requires 0 <= i < n => Chunk(s, size, i));
    forall i | 0 <= i < n - 1
      ensures |cs[i]| == size
    {
      OffsetMonotone(i + 1, n - 1, size);
    }
    cs
  }

  /** The chunks put back together in order (the source's repeated `push`). */
  function Flatten<T>(cs: seq<seq<T>>): seq<T> {
    if |cs| == 0 then [] else Flatten(cs[..|cs| - 1]) + cs[|cs| - 1]
  }

  /** The first `k` chunks cover exactly the first `k * size` elements. */
  lemma {:induction false} FlattenPrefix<T>(s: seq<T>, size: nat, k: nat)
    requires size > 0 && k <= ChunkCount(|s|, size)
    ensures Flatten(Chunks(s, size)[..k]) == s[..Min(Offset(k, size), |s|)]
  {
    if k > 0 {
      var cs := Chunks(s, size);
      FlattenPrefix(s, size, k - 1);
      assert cs[..k][..k - 1] == cs[..k - 1];
      var lo := Offset(k - 1, size);
      var hi := Min(Offset(k, size), |s|);
      assert cs[k - 1] == s[lo..hi];
      assert Flatten(cs[..k]) == s[..lo] + s[lo..hi];
      assert s[..lo] + s[lo..hi] == s[..hi];
    }
  }

  /** Cutting into chunks loses, duplicates and reorders nothing. */
  lemma ChunksFlatten<T>(s: seq<T>, size: nat)
    requires size > 0
    ensures Flatten(Chunks(s, size)) == s
  {
    var cs := Chunks(s, size);
    FlattenPrefix(s, size, |cs|);
    assert cs[..|cs|] == cs;
    assert s[..|s|] == s;
  }

  lemma FlattenStep<T>(cs: seq<seq<T>>, k: nat)
    requires k < |cs|
    ensures Flatten(cs[..k + 1]) == Flatten(cs[..k]) + cs[k]
  {
    assert cs[..k + 1][..k] == cs[..k];
  }

  /** The catalog is scanned in 32 batches of three course codes. */
  lemma CatalogBatches()
    ensures |Chunks(MK_ID_LIST, CHUNK_SIZE)| == 32
    ensures forall i :: 0 <= i < 32 ==> |Chunks(MK_ID_LIST, CHUNK_SIZE)[i]| == 3
  {
    CatalogSizes();
    var n := ChunkCount(|MK_ID_LIST|, CHUNK_SIZE);
    assert n == 32;
    OffsetIsProduct(31, CHUNK_SIZE);
    OffsetIsProduct(32, CHUNK_SIZE);
    assert |Chunk(MK_ID_LIST, CHUNK_SIZE, 31)| == 3;
  }

  // ---------------------------------------------------------------------------
  // The endpoint
  // ---------------------------------------------------------------------------

  /** The reply the endpoint gives: a malformed body fails, a missing field is
      reported before the session is looked at, a rejected session stops the
      scan, and otherwise the reply lists the matches of the whole catalog in
      catalog order, possibly none. */
  function Search(request: Request, probe: Session.Probe, upstream: Batch.Upstream): (reply: Reply)
    ensures request.Malformed? ==> reply == Failure
    ensures request.Json? && (!Truthy(request.nrp) || !Truthy(request.sessionId)) ==> reply == MissingFields
    ensures request.Json? && Truthy(request.nrp) && Truthy(request.sessionId) && !Session.CheckSession(probe)
            ==> reply == InvalidSession
    ensures request.Json? && Truthy(request.nrp) && Truthy(request.sessionId) && Session.CheckSession(probe)
            ==> reply == Results(Batch.BatchResults(MK_ID_LIST, ALLOWED_CLASSES, request.nrp.value, upstream))
  {
    match request
    case Malformed => Failure
    case Json(nrp, sessionId) =>
      if !Truthy(nrp) || !Truthy(sessionId) then MissingFields
      else if !Session.CheckSession(probe) then InvalidSession
      else Results(Batch.BatchResults(MK_ID_LIST, ALLOWED_CLASSES, nrp.value, upstream))
  }

  /** The scan loop: the courses are taken CHUNK_SIZE at a time, each chunk
      is searched as one batch, and the results are appended in order. The
      result is the same as one batch over all the courses. */
  method ScanInChunks(mkIds: seq<string>, classes: seq<string>, nrp: string, upstream: Batch.Upstream)
    returns (allResults: seq<ClassResult>, requests: nat)
    ensures allResults == Batch.BatchResults(mkIds, classes, nrp, upstream)
    ensures requests == Batch.BatchRequests(mkIds, classes, upstream)
  {
    var chunks := Chunks(mkIds, CHUNK_SIZE);
    allResults, requests := [], 0;
    for c := 0 to |chunks|
      invariant allResults == Batch.BatchResults(Flatten(chunks[..c]), classes, nrp, upstream)
      invariant requests == Batch.BatchRequests(Flatten(chunks[..c]), classes, upstream)
    {
      var results, sent := Batch.SearchBatch(chunks[c], classes, nrp, upstream);
      FlattenStep(chunks, c);
      Batch.BatchAppend(Flatten(chunks[..c]), chunks[c], classes, nrp, upstream);
      Batch.BatchRequestsAppend(Flatten(chunks[..c]), chunks[c], classes, upstream);
      allResults := allResults + results;
      requests := requests + sent;
    }
    assert chunks[..|chunks|] == chunks;
    ChunksFlatten(mkIds, CHUNK_SIZE);
  }

  /** The handler as the source runs it. `probed` tells whether the session
      probe was sent and `requests` counts the roster requests. */
  method Post(request: Request, probe: Session.Probe, upstream: Batch.Upstream)
    returns (reply: Reply, probed: bool, requests: nat)
    ensures reply == Search(request, probe, upstream)
    ensures probed <==> request.Json? && Truthy(request.nrp) && Truthy(request.sessionId)
    ensures requests == (if reply.Results? then Batch.BatchRequests(MK_ID_LIST, ALLOWED_CLASSES, upstream) else 0)
  {
    if request.Malformed? {
      return Failure, false, 0;
    }
    if !Truthy(request.nrp) || !Truthy(request.sessionId) {
      return MissingFields, false, 0;
    }
    var nrp := request.nrp.value;
    probed := true;
    if !Session.CheckSession(probe) {
      return InvalidSession, probed, 0;
    }
    var allResults;
    allResults, requests := ScanInChunks(MK_ID_LIST, ALLOWED_CLASSES, nrp, upstream);
    reply := Results(allResults);
  }

  // ---------------------------------------------------------------------------
  // Properties of the endpoint
  // ---------------------------------------------------------------------------

  /** The status codes: 500 only for a malformed body, 400 exactly when a
      field is missing or empty, 401 exactly when the fields are there but the
      session is rejected, and 200 otherwise, even when nothing is found. */
  lemma StatusCodes(request: Request, probe: Session.Probe, upstream: Batch.Upstream)
    ensures var code := Status(Search(request, probe, upstream));
            && (code == 500 <==> request.Malformed?)
            && (code == 400 <==> request.Json? && (!Truthy(request.nrp) || !Truthy(request.sessionId)))
            && (code == 401 <==> request.Json? && Truthy(request.nrp) && Truthy(request.sessionId)
                                 && !Session.CheckSession(probe))
            && (code == 200 <==> request.Json? && Truthy(request.nrp) && Truthy(request.sessionId)
                                 && Session.CheckSession(probe))
  {
  }

  /** The results are listed in catalog order, then in section order, and no
      (course, section) pair appears twice. */
  lemma ResultsOrdered(request: Request, probe: Session.Probe, upstream: Batch.Upstream)
    requires Search(request, probe, upstream).Results?
    ensures Batch.InScanOrder(MK_ID_LIST, ALLOWED_CLASSES, Search(request, probe, upstream).results)
  {
    assert request.Json? && Truthy(request.nrp) && Truthy(request.sessionId) && Session.CheckSession(probe);
    CatalogDistinct();
    ClassesDistinct();
    Batch.BatchOrdered(MK_ID_LIST, ALLOWED_CLASSES, request.nrp.value, upstream);
  }

  /** A reply lists at most one result per (course, section) pair of the
      catalog, 96 * 14 in all. */
  lemma ResultsBound(request: Request, probe: Session.Probe, upstream: Batch.Upstream)
    requires Search(request, probe, upstream).Results?
    ensures |Search(request, probe, upstream).results| <= 1344
  {
    CatalogSizes();
    Batch.BatchLength(MK_ID_LIST, ALLOWED_CLASSES, request.nrp.value, upstream);
  }

  /** A result is reported exactly when one section of the catalog was fetched
      and lists the student; each result carries the student's name and
      course title from that roster, and the course's credits. */
  lemma ResultsExact(request: Request, probe: Session.Probe, upstream: Batch.Upstream, r: ClassResult)
    requires Search(request, probe, upstream).Results?
    ensures r in Search(request, probe, upstream).results <==>
            exists i, j :: 0 <= i < |MK_ID_LIST| && 0 <= j < |ALLOWED_CLASSES| &&
                           Batch.SectionResult(MK_ID_LIST[i], ALLOWED_CLASSES[j], request.nrp.value, upstream) == Some(r)
  {
    Batch.BatchMembership(MK_ID_LIST, ALLOWED_CLASSES, request.nrp.value, upstream, r);
  }

  /** A student that no roster lists gets a successful reply with no
      results. */
  lemma AbsentStudent(request: Request, probe: Session.Probe, upstream: Batch.Upstream)
    requires request.Json? && Truthy(request.nrp) && Truthy(request.sessionId) && Session.CheckSession(probe)
    requires forall i, j :: 0 <= i < |MK_ID_LIST| && 0 <= j < |ALLOWED_CLASSES| ==>
               Batch.SectionResult(MK_ID_LIST[i], ALLOWED_CLASSES[j], request.nrp.value, upstream).None?
    ensures Search(request, probe, upstream) == Results([])
    ensures Status(Search(request, probe, upstream)) == 200
  {
    var rs := Batch.BatchResults(MK_ID_LIST, ALLOWED_CLASSES, request.nrp.value, upstream);
    if |rs| > 0 {
      Batch.BatchMembership(MK_ID_LIST, ALLOWED_CLASSES, request.nrp.value, upstream, rs[0]);
      assert false;
    }
  }

  /** A full scan over the 1344 (course, section) pairs sends between 1344
      and (MAX_RETRIES + 1) * 1344 = 5376 roster requests in total. */
  lemma RequestBounds(upstream: Batch.Upstream)
    ensures 1344 <= Batch.BatchRequests(MK_ID_LIST, ALLOWED_CLASSES, upstream) <= 5376
  {
    CatalogSizes();
    Batch.BatchRequestBounds(MK_ID_LIST, ALLOWED_CLASSES, upstream);
  }
}
