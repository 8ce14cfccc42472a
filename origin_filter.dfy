/**
 * The origin policy and CORS middleware that runs in front of the `/{1}/info` route.
 *
 * A request whose `Origin` header mentions the forbidden host is answered "not found";
 * otherwise an `OPTIONS` preflight is answered 200 with the CORS headers; otherwise the
 * request goes on to the next stage, and the response that comes back is decorated with
 * the two CORS headers before it is handed on.
 */
module OriginReject {

  datatype HttpMethod = Get | Post | Head | Put | Delete | Options | Patch | Invalid

  /** The parts of a request the middleware looks at; header names are lower case. */
  datatype Request = Request(verb: HttpMethod, headers: map<string, string>)

  datatype Header = Header(name: string, value: string)

  /** A response body: empty, the framework's own not-found page, or some content. */
  datatype Body = Empty | NotFoundPage | Content(text: string)

  const ForbiddenHost: string := "www.some-evil-place.com"

  const Ok: int := 200
  const NotFound: int := 404

  const AllowOrigin: string := "Access-Control-Allow-Origin"
  const AllowCredentials: string := "Access-Control-Allow-Credentials"
  const AllowMethods: string := "Access-Control-Allow-Methods"
  const AllowHeaders: string := "Access-Control-Allow-Headers"
  const AllowedMethods: string := "GET, POST, PUT, DELETE, OPTIONS"
  const AllowedHeaders: string := "Content-Type, Authorization"

  /** `req->getHeader("origin")`: the empty string when the header is absent. */
  function OriginOf(req: Request): (origin: string)
    ensures "origin" in req.headers ==> origin == req.headers["origin"]
    ensures "origin" !in req.headers ==> origin == ""
  {
    if "origin" in req.headers then req.headers["origin"] else ""
  }

  /** `pat` occurs in `s` starting at index `i`. */
  predicate OccursAt(s: string, pat: string, i: int)
  {
    0 <= i && i + |pat| <= |s| && s[i..i + |pat|] == pat
  }

  /** `s.find(pat) != npos`, searched from the front. */
  predicate Contains(s: string, pat: string)
    decreases |s|
  {
    |pat| <= |s| && (s[..|pat|] == pat || Contains(s[1..], pat))
  }

  /** The search agrees with the definition of a substring occurrence. */
  lemma {:induction false} ContainsIff(s: string, pat: string)
    ensures Contains(s, pat) <==> exists i :: OccursAt(s, pat, i)
    decreases |s|
  {
    if |pat| <= |s| {
      if s[..|pat|] == pat {
        assert OccursAt(s, pat, 0);
        return;
      }
      ContainsIff(s[1..], pat);
      if Contains(s[1..], pat) {
        var i :| OccursAt(s[1..], pat, i);
        assert s[1..][i..i + |pat|] == s[i + 1..i + 1 + |pat|];
        assert OccursAt(s, pat, i + 1);
      } else {
        forall i | 0 < i && i + |pat| <= |s| ensures !OccursAt(s, pat, i) {
          assert s[1..][i - 1..i - 1 + |pat|] == s[i..i + |pat|];
          assert !OccursAt(s[1..], pat, i - 1);
        }
      }
    }
  }

  /** The origin check of `invoke`: a non-empty origin that mentions the forbidden host. */
  predicate IsBlocked(origin: string)
  {
    origin != "" && Contains(origin, ForbiddenHost)
  }

  /** How `invoke` disposes of a request. */
  datatype Decision = Reject | Preflight | Forward

  /** The branch `invoke` takes for a request with this origin and method. The origin
      check comes first, so a blocked `OPTIONS` request is rejected too. */
  function Classify(origin: string, verb: HttpMethod): (d: Decision)
    ensures d == Reject <==> exists i :: OccursAt(origin, ForbiddenHost, i)
    ensures d == Preflight <==> !IsBlocked(origin) && verb == Options
    ensures d == Forward <==> !IsBlocked(origin) && verb != Options
    ensures origin == "" ==> d != Reject
  {
    ContainsIff(origin, ForbiddenHost);
    if IsBlocked(origin) then Reject
    else if verb == Options then Preflight
    else Forward
  }

  /** The headers added to a preflight answer: all four CORS headers, or none when the
      request carries no origin. */
  function PreflightHeaders(origin: string): seq<Header>
  {
    if origin == "" then []
    else [Header(AllowOrigin, origin), Header(AllowCredentials, "true"),
          Header(AllowMethods, AllowedMethods), Header(AllowHeaders, AllowedHeaders)]
  }

  /** The headers the response decorator appends: two CORS headers, or none when the
      request carries no origin. */
  function DecoratorHeaders(origin: string): seq<Header>
  {
    if origin == "" then [] else [Header(AllowOrigin, origin), Header(AllowCredentials, "true")]
  }

  /** A response under construction; headers are appended in place. */
  class Response {
    var status: int
    var headers: seq<Header>
    var body: Body

    constructor (status: int, body: Body)
      ensures this.status == status && headers == [] && this.body == body
    {
      this.status := status;
      headers := [];
      this.body := body;
    }

    method AddHeader(name: string, value: string)
      modifies this
      ensures headers == old(headers) + [Header(name, value)]
      ensures status == old(status) && body == old(body)
    {
      headers := headers + [Header(name, value)];
    }

    method SetStatusCode(code: int)
      modifies this
      ensures status == code
      ensures headers == old(headers) && body == old(body)
    {
      status := code;
    }
  }

  /** The decorator registered when a request is forwarded: it appends the CORS headers
      for a non-empty origin and leaves status, body and earlier headers as they were. */
  method Decorate(origin: string, resp: Response)
    modifies resp
    ensures resp.headers == old(resp.headers) + DecoratorHeaders(origin)
    ensures resp.status == old(resp.status) && resp.body == old(resp.body)
  {
    if origin != "" {
      resp.AddHeader(AllowOrigin, origin);
      resp.AddHeader(AllowCredentials, "true");
    }
  }

  /** `OriginRejectFilter::invoke`. `downstream` is the response the rest of the chain
      produces when the request is forwarded; `forwarded` tells whether the next stage
      was invoked, and `resp` is the one response handed to the completion callback. */
  method Invoke(req: Request, downstream: Response) returns (resp: Response, forwarded: bool)
    modifies downstream
    ensures forwarded <==> Classify(OriginOf(req), req.verb) == Forward
    ensures Classify(OriginOf(req), req.verb) == Reject ==>
              fresh(resp) && resp.status == NotFound && resp.headers == [] &&
              resp.body == NotFoundPage
    ensures Classify(OriginOf(req), req.verb) == Preflight ==>
              fresh(resp) && resp.status == Ok &&
              resp.headers == PreflightHeaders(OriginOf(req)) && resp.body == Empty
    ensures forwarded ==>
              resp == downstream &&
              resp.headers == old(downstream.headers) + DecoratorHeaders(OriginOf(req)) &&
              resp.status == old(downstream.status) && resp.body == old(downstream.body)
    ensures !forwarded ==> unchanged(downstream)
  {
    var origin := OriginOf(req);

    // reject the forbidden origin
    if origin != "" && Contains(origin, ForbiddenHost) {
      resp := new Response(NotFound, NotFoundPage);
      forwarded := false;
      return;
    }

    // answer a CORS preflight
    if req.verb == Options {
      resp := new Response(Ok, Empty);
      if origin != "" {
        resp.AddHeader(AllowOrigin, origin);
        resp.AddHeader(AllowCredentials, "true");
        resp.AddHeader(AllowMethods, AllowedMethods);
        resp.AddHeader(AllowHeaders, AllowedHeaders);
      }
      resp.SetStatusCode(Ok);
      forwarded := false;
      return;
    }

    // continue the chain and decorate what comes back
    forwarded := true;
    Decorate(origin, downstream);
    resp := downstream;
  }
}
