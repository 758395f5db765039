/**
 * The remote match client, `check_name_against_opensanctions`: the HTTP request and the
 * JSON decoding are an oracle; what the code itself decides is how a parsed body is
 * classified.
 */
module Lookup {
  import opened Wrappers

  /** One candidate match; each field is absent when the JSON item lacks that key. The
      score is kept as the text Python would print for it. */
  datatype Hit = Hit(name: Option<string>, dataset: Option<string>, score: Option<string>)

  /** A decoded response body; `matches` is None when the key is absent or null. */
  datatype Body = Body(matches: Option<seq<Hit>>)

  /** What one remote lookup does: return a decoded body, or raise an exception whose
      `str` is `message` ("API request failed: ...", "Invalid response from API", ...). */
  datatype Answer = Parsed(body: Body) | Raised(message: string)

  /** The remote service. The first argument is the number of lookups made before this
      one, so that repeated calls for the same name are independent. */
  type Oracle = (nat, string) -> Answer

  /** The pair `(status, matches)` the client returns. */
  datatype Verdict = Verdict(status: string, matches: seq<Hit>)

  const MatchFound: string := "Match Found"
  const Clear: string := "Clear"

  /** The body's matches list, empty when the key is absent or its value is null
      (KYC_Sentinel/main.py:167). */
  function MatchesOf(body: Body): seq<Hit> {
    body.matches.GetOr([])
  }

  /** Classification of a decoded body: any match at all is "Match Found" with every
      match kept in order; no match is "Clear" with the empty list. */
  function Classify(body: Body): (v: Verdict)
    ensures v.status == MatchFound || v.status == Clear
    ensures v.status == MatchFound <==> MatchesOf(body) != []
    ensures v.matches == MatchesOf(body)
  {
    var matches := MatchesOf(body);
    if matches != [] then Verdict(MatchFound, matches) else Verdict(Clear, [])
  }

  /** The caller's test `if matches:` agrees with the status. */
  lemma MatchesIffMatchFound(body: Body)
    ensures Classify(body).matches != [] <==> Classify(body).status == MatchFound
  {
  }
}
