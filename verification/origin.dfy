/** `isAllowedOrigin` in both variants, and the lambda's CORS headers. An origin is a string;
    the empty string stands for a request without an `Origin` header, and the configured
    origin is the empty string when none is configured (both are falsy in JavaScript). */
module Origin {
  import opened Text

  /** The server's check. A request without an origin always passes. In production only the
      configured origin passes, and nothing else when none is configured; in development any
      origin mentioning `localhost` passes too. */
  predicate ServerAllowedOrigin(production: bool, allowed: string, origin: string): (b: bool)
    ensures origin == "" ==> b
    ensures allowed != "" && origin == allowed ==> b
    ensures !production && Contains(origin, "localhost") ==> b
    ensures b && origin != "" ==> (allowed != "" && origin == allowed) || (!production && Contains(origin, "localhost"))
  {
    if origin == "" then true
    else if production then (if allowed != "" then origin == allowed else false)
    else if Contains(origin, "localhost") then true
    else allowed != "" && origin == allowed
  }

  /** The lambda's check. A request without an origin always passes; with an origin configured,
      only that origin passes; otherwise any origin mentioning `localhost` or `127.0.0.1`. */
  predicate LambdaAllowedOrigin(allowed: string, origin: string): (b: bool)
    ensures origin == "" ==> b
    ensures allowed != "" && origin == allowed ==> b
    ensures b && origin != "" && allowed != "" ==> origin == allowed
    ensures b && origin != "" && allowed == "" ==> Contains(origin, "localhost") || Contains(origin, "127.0.0.1")
  {
    if origin == "" then true
    else if allowed != "" then origin == allowed
    else Contains(origin, "localhost") || Contains(origin, "127.0.0.1")
  }

  /** The server in production never lets through what it refuses in development. */
  lemma ProductionIsStricter(allowed: string, origin: string)
    ensures ServerAllowedOrigin(true, allowed, origin) ==> ServerAllowedOrigin(false, allowed, origin)
  {
  }

  /** Once an origin is configured, the lambda and the server in production agree: exactly the
      configured origin and origin-less requests pass. */
  lemma ConfiguredOriginOnly(allowed: string, origin: string)
    requires allowed != ""
    ensures LambdaAllowedOrigin(allowed, origin) <==> origin == "" || origin == allowed
    ensures LambdaAllowedOrigin(allowed, origin) <==> ServerAllowedOrigin(true, allowed, origin)
  {
  }

  /** A server in production with no origin configured serves only requests without one. */
  lemma UnconfiguredProduction(origin: string)
    ensures ServerAllowedOrigin(true, "", origin) <==> origin == ""
  {
  }

  /** Without a configured origin, the lambda accepts a loopback address that the server in
      development refuses. */
  lemma LoopbackOnlyLambda()
    ensures LambdaAllowedOrigin("", "http://127.0.0.1:5173")
    ensures !ServerAllowedOrigin(false, "", "http://127.0.0.1:5173")
  {
    var o := "http://127.0.0.1:5173";
    assert OccursAt(o, "127.0.0.1", 7);
    assert !Contains(o, "localhost") by {
      forall i | 0 <= i <= |o| - 9 ensures !OccursAt(o, "localhost", i) {
        assert o[i..i + 9][0] == o[i];
        assert o[i] != 'l';
      }
    }
  }

  /** The lambda's CORS headers (`corsHeaders`): the allowed origin is echoed back, the
      configured origin is named instead when there is one, and `*` stands for a request
      without an origin; a refused origin gets `null`. */
  datatype CorsHeaders = CorsHeaders(allowOrigin: string, allowMethods: string, allowHeaders: string, maxAge: string)

  function Cors(allowed: string, origin: string): (h: CorsHeaders)
    ensures !LambdaAllowedOrigin(allowed, origin) ==> h.allowOrigin == "null"
    ensures h.allowOrigin == "*" || h.allowOrigin == "null" || LambdaAllowedOrigin(allowed, h.allowOrigin)
    ensures allowed == "" && origin == "" ==> h.allowOrigin == "*"
    ensures allowed != "" && h.allowOrigin != "null" ==> h.allowOrigin == allowed
    ensures LambdaAllowedOrigin(allowed, origin) && allowed == "" && origin != "" ==> h.allowOrigin == origin
    ensures h.allowMethods == "GET,POST,OPTIONS" && h.allowHeaders == "content-type" && h.maxAge == "86400"
  {
    var allowOrigin :=
      if LambdaAllowedOrigin(allowed, origin) then (if allowed != "" then allowed else if origin != "" then origin else "*")
      else "null";
    CorsHeaders(allowOrigin, "GET,POST,OPTIONS", "content-type", "86400")
  }

  /** For a request that carries an origin other than the opaque `null`, the header names the
      request's own origin exactly when the lambda admits it, so the browser's CORS check and the
      lambda's origin check agree. */
  lemma CorsEchoesAdmitted(allowed: string, origin: string)
    requires origin != "" && origin != "null"
    ensures Cors(allowed, origin).allowOrigin == origin <==> LambdaAllowedOrigin(allowed, origin)
  {
    if LambdaAllowedOrigin(allowed, origin) && allowed != "" {
      assert origin == allowed;
    }
  }
}
