/** The session probe `checkSession` (src/app/api/search/route.ts, lines
    232-241). The GET request to the portal's home page is not modelled: its
    outcome is given as a `Probe`. The HTTP client rejects any status outside
    200-299, which the source's `catch` turns into "invalid". */
module Session {
  import Text

  datatype Probe = ProbeFailed | ProbeResponse(status: int, body: string)

  /** The text that the portal's login redirect page contains. */
  const LOGIN_MARKER: string := "myitsauth.php"

  /** A session is valid when the probe got a successful response whose body
      does not contain the login marker anywhere; any failure counts as
      invalid. */
  function CheckSession(probe: Probe): (valid: bool)
    ensures valid <==>
              probe.ProbeResponse? && 200 <= probe.status < 300 &&
              forall i: nat :: !Text.OccursAt(probe.body, LOGIN_MARKER, i)
    ensures probe.ProbeFailed? ==> !valid
  {
    probe.ProbeResponse? && 200 <= probe.status < 300 &&
    !Text.Includes(probe.body, LOGIN_MARKER)
  }

  /** A page that shows the login marker anywhere is never accepted. */
  lemma LoginPageRejected(status: int, before: string, after: string)
    ensures !CheckSession(ProbeResponse(status, before + LOGIN_MARKER + after))
  {
    var body := before + LOGIN_MARKER + after;
    assert body[|before|..|before| + |LOGIN_MARKER|] == LOGIN_MARKER;
    assert Text.OccursAt(body, LOGIN_MARKER, |before|);
  }
}
