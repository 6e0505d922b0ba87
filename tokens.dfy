/** `getTokenFromReq(req)`: the bearer credential of a request is the last
    space-separated piece of its `Authorization` header, or `null` when the
    header is absent (controllers/internalFunctions.js). */
module Tokens {
  import opened Wrappers
  import opened Strings

  /** Request headers as Node.js exposes them: names lower-cased. */
  type Headers = map<string, string>

  /** `getTokenFromReq(req)`. `None` stands for `null`. The result is the
      final space-free stretch of the header: no scheme check is made, so any
      header yields a token. */
  function TokenFromReq(headers: Headers): (token: Option<string>)
    ensures token.None? <==> "authorization" !in headers
    ensures token.Some? ==> IsLastSegment(headers["authorization"], token.value)
  {
    match Lookup(headers, "authorization")
    case None => None
    case Some(header) =>
      var bearer := Split(header);
      LastPieceIsLastSegment(header);
      Some(bearer[|bearer| - 1])
  }

  /** The token read from the right end of the header, independently of how
      the split is computed, is the same token. */
  lemma TokenIsAfterLastSpace(headers: Headers)
    requires "authorization" in headers
    ensures TokenFromReq(headers) == Some(AfterLastSpace(headers["authorization"]))
  {
    var h := headers["authorization"];
    LastSegmentUnique(h, TokenFromReq(headers).value, AfterLastSpace(h));
  }

  /** The extracted token never contains a space. */
  lemma TokenHasNoSpace(headers: Headers)
    requires "authorization" in headers
    ensures ' ' !in TokenFromReq(headers).value
  {
  }

  /** A header `scheme + " " + t`, with no space in either part, yields `t`
      exactly; in particular `Bearer <t>` yields `t`. The scheme itself is
      never inspected. */
  lemma SchemeThenToken(headers: Headers, scheme: string, t: string)
    requires ' ' !in scheme && ' ' !in t
    requires "authorization" in headers && headers["authorization"] == scheme + " " + t
    ensures TokenFromReq(headers) == Some(t)
  {
    var h := scheme + " " + t;
    SplitCons(scheme, t);
    SplitNoSpace(t);
    assert Split(h) == [scheme, t];
  }

  /** `Authorization: Bearer <t>` yields `t`. */
  lemma BearerToken(headers: Headers, t: string)
    requires ' ' !in t
    requires "authorization" in headers && headers["authorization"] == "Bearer " + t
    ensures TokenFromReq(headers) == Some(t)
  {
    SchemeThenToken(headers, "Bearer", t);
  }

  /** A header without a space is returned unchanged. */
  lemma NoSpaceHeaderUnchanged(headers: Headers)
    requires "authorization" in headers && ' ' !in headers["authorization"]
    ensures TokenFromReq(headers) == Some(headers["authorization"])
  {
    SplitNoSpace(headers["authorization"]);
  }

  /** A header ending in a space yields the empty token. */
  lemma TrailingSpaceEmptyToken(headers: Headers)
    requires "authorization" in headers
    requires var h := headers["authorization"]; |h| > 0 && h[|h| - 1] == ' '
    ensures TokenFromReq(headers) == Some("")
  {
    TokenIsAfterLastSpace(headers);
  }
}
