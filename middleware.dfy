/**
 * AuthMiddleware (middleware/auth_middleware.go): a request is forwarded to
 * the wrapped handler exactly when its `X-API-Key` header reads "RAHASIA";
 * otherwise it is answered with a 401 envelope and goes no further.
 */
module Middleware {
  import opened Wrappers
  import opened Model

  /** An HTTP header: canonical field names to their values, in arrival order. */
  type Header = map<string, seq<string>>

  datatype Request = Request(verb: string, path: string, header: Header)

  /** What a handler produces: a status line, the content type and the envelope in the body. */
  datatype Response = Response(statusCode: int, contentType: string, body: WebResponse)

  const ApiKeyHeader := "X-API-Key"
  const ApiKey := "RAHASIA"
  const StatusUnauthorized := 401
  const UnauthorizedEnvelope := WebResponse(StatusUnauthorized, "unauthorized", None)

  /** A character allowed in a header field name (an RFC 7230 token character). */
  predicate IsTokenChar(c: char)
  {
    || 'a' <= c <= 'z' || 'A' <= c <= 'Z' || '0' <= c <= '9'
    || c in "!#$%&'*+-.^_`|~"
  }

  function ToUpper(c: char): char
  {
    if 'a' <= c <= 'z' then (c as int - 32) as char else c
  }

  function ToLower(c: char): char
  {
    if 'A' <= c <= 'Z' then (c as int + 32) as char else c
  }

  /** Upper-cases the first letter and every letter after a '-', lower-cases the rest. */
  function CaseWords(s: string, upper: bool): (r: string)
    ensures |r| == |s|
  {
    if s == [] then []
    else [if upper then ToUpper(s[0]) else ToLower(s[0])] + CaseWords(s[1..], s[0] == '-')
  }

  /** The canonical form of a header field name; a name with a non-token character is left as it is. */
  function CanonicalKey(key: string): (canonical: string)
    ensures |canonical| == |key|
  {
    if forall i :: 0 <= i < |key| ==> IsTokenChar(key[i]) then CaseWords(key, true) else key
  }

  /** Canonicalising changes at most the letter case of a name. */
  /** Position `i` is upper-cased when it starts the name or follows a '-', and lower-cased otherwise. */
  lemma {:induction false} CaseWordsAt(s: string, upper: bool, i: int)
    requires 0 <= i < |s|
    ensures CaseWords(s, upper)[i] ==
      if (i == 0 && upper) || (i > 0 && s[i - 1] == '-') then ToUpper(s[i]) else ToLower(s[i])
  {
    if i > 0 {
      CaseWordsAt(s[1..], s[0] == '-', i - 1);
      assert s[1..][i - 1] == s[i];
      if i > 1 {
        assert s[1..][i - 2] == s[i - 1];
      }
    }
  }

  lemma {:induction false} CaseWordsChangesOnlyCase(s: string, upper: bool)
    ensures SameIgnoringCase(CaseWords(s, upper), s)
  {
    if s != [] {
      CaseWordsChangesOnlyCase(s[1..], s[0] == '-');
      var r := CaseWords(s, upper);
      forall i | 0 <= i < |s|
        ensures ToLower(r[i]) == ToLower(s[i])
      {
        if i > 0 {
          assert r[i] == CaseWords(s[1..], s[0] == '-')[i - 1];
        }
      }
    }
  }

  lemma CanonicalKeyChangesOnlyCase(key: string)
    ensures SameIgnoringCase(CanonicalKey(key), key)
  {
    CaseWordsChangesOnlyCase(key, true);
  }

  /** `Header.Get`: the first value stored under the canonical name, or "" when there is none. */
  function Get(header: Header, key: string): (value: string)
    ensures CanonicalKey(key) !in header ==> value == ""
    ensures value != "" ==> CanonicalKey(key) in header && value in header[CanonicalKey(key)]
  {
    var k := CanonicalKey(key);
    if k in header && |header[k]| > 0 then header[k][0] else ""
  }

  /** `Header.Add`: appends a value under the canonical name. */
  function Add(header: Header, key: string, value: string): (added: Header)
    ensures added.Keys == header.Keys + {CanonicalKey(key)}
    ensures forall k :: k in header && k != CanonicalKey(key) ==> added[k] == header[k]
    ensures Get(added, key) == if CanonicalKey(key) in header && header[CanonicalKey(key)] != []
                               then Get(header, key) else value
  {
    var k := CanonicalKey(key);
    header[k := (if k in header then header[k] else []) + [value]]
  }

  datatype Decision = Forward | Reject(envelope: WebResponse)

  /** The gate's decision, which reads nothing of the request but the one header. */
  function Decide(request: Request): (decision: Decision)
    ensures decision == Forward <==> Get(request.header, ApiKeyHeader) == ApiKey
    ensures decision.Reject? ==> decision.envelope.code == 401 && decision.envelope.status == "unauthorized"
    ensures decision.Reject? ==> decision.envelope.data == None
  {
    if Get(request.header, ApiKeyHeader) == ApiKey then Forward else Reject(UnauthorizedEnvelope)
  }

  /** ServeHTTP: hand the request to `next`, or write the rejection as a JSON 401 response. */
  function ServeHTTP(next: Request -> Response, request: Request): (response: Response)
    ensures Decide(request) == Forward ==> response == next(request)
    ensures Decide(request) != Forward ==>
      response == Response(401, "application/json", WebResponse(401, "unauthorized", None))
  {
    match Decide(request)
    case Forward => next(request)
    case Reject(envelope) => Response(StatusUnauthorized, "application/json", envelope)
  }

  /** A request is forwarded, unchanged, to the wrapped handler exactly when its key header reads "RAHASIA". */
  lemma ForwardsExactlyWithKey(next: Request -> Response, request: Request)
    ensures Decide(request) == Forward <==> Get(request.header, "X-API-Key") == "RAHASIA"
    ensures Get(request.header, "X-API-Key") == "RAHASIA" ==> ServeHTTP(next, request) == next(request)
  {
  }

  /**
   * Every other request, including one without the header (read as ""),
   * gets status 401 and the envelope {401, "unauthorized"} with no data,
   * whatever the wrapped handler would have done: it is never consulted.
   */
  lemma RejectsWithoutKey(next: Request -> Response, other: Request -> Response, request: Request)
    ensures Get(request.header, "X-API-Key") != "RAHASIA" ==>
      && Decide(request) == Reject(WebResponse(401, "unauthorized", None))
      && ServeHTTP(next, request).statusCode == 401
      && ServeHTTP(next, request).body == WebResponse(401, "unauthorized", None)
      && ServeHTTP(next, request) == ServeHTTP(other, request)
  {
  }

  /** A request with no key header at all is read as "" and so rejected. */
  lemma MissingHeaderRejected(request: Request)
    requires CanonicalKey(ApiKeyHeader) !in request.header
    ensures Get(request.header, ApiKeyHeader) == ""
    ensures Decide(request).Reject?
  {
  }

  /** Method and path play no part: requests with the same header get the same decision and response. */
  lemma DecisionIgnoresMethodAndPath(next: Request -> Response, a: Request, b: Request)
    requires a.header == b.header
    ensures Decide(a) == Decide(b)
    ensures Decide(a).Reject? ==> ServeHTTP(next, a) == ServeHTTP(next, b)
  {
  }

  /** Every character of "X-API-Key" may appear in a field name. */
  lemma ApiKeyHeaderIsToken()
    ensures forall i :: 0 <= i < |ApiKeyHeader| ==> IsTokenChar(ApiKeyHeader[i])
  {
    var key := ApiKeyHeader;
    forall i | 0 <= i < |key|
      ensures IsTokenChar(key[i])
    {
      assert key[i] in "X-APIKey";
    }
  }

  lemma CaseWordsStep(s: string, upper: bool, rest: string)
    requires s != [] && CaseWords(s[1..], s[0] == '-') == rest
    ensures CaseWords(s, upper) == [if upper then ToUpper(s[0]) else ToLower(s[0])] + rest
  {
  }

  /** The casing of the name's last word, "Key". */
  lemma KeyWordCased()
    ensures CaseWords("-Key", false) == "-Key"
  {
    CaseWordsStep("y", false, "");
    assert "ey"[1..] == "y";
    CaseWordsStep("ey", false, "y");
    assert "Key"[1..] == "ey";
    CaseWordsStep("Key", true, "ey");
    assert "-Key"[1..] == "Key";
    CaseWordsStep("-Key", false, "Key");
  }

  /** The casing of the name's middle word, "API". */
  lemma ApiWordCased()
    ensures CaseWords("-API-Key", false) == "-Api-Key"
  {
    KeyWordCased();
    assert "I-Key"[1..] == "-Key";
    CaseWordsStep("I-Key", false, "-Key");
    assert "PI-Key"[1..] == "I-Key";
    CaseWordsStep("PI-Key", false, "i-Key");
    assert "API-Key"[1..] == "PI-Key";
    CaseWordsStep("API-Key", true, "pi-Key");
    assert "-API-Key"[1..] == "API-Key";
    CaseWordsStep("-API-Key", false, "Api-Key");
  }

  /** A name holding a character that may not appear in a field name is left exactly as given. */
  lemma CanonicalKeyOfNonToken(key: string)
    requires exists i :: 0 <= i < |key| && !IsTokenChar(key[i])
    ensures CanonicalKey(key) == key
  {
  }

  /** A name made only of token characters is canonicalised by the casing rule. */
  lemma CanonicalKeyOfToken(key: string)
    requires forall i :: 0 <= i < |key| ==> IsTokenChar(key[i])
    ensures CanonicalKey(key) == CaseWords(key, true)
  {
  }

  /** The casing of the whole name "X-API-Key". */
  lemma ApiKeyHeaderCased()
    ensures CaseWords("X-API-Key", true) == "X-Api-Key"
  {
    ApiWordCased();
    assert "X-API-Key"[1..] == "-API-Key";
    CaseWordsStep("X-API-Key", true, "-Api-Key");
  }

  /** The key header is stored, and looked up, under the name "X-Api-Key". */
  lemma ApiKeyHeaderCanonical()
    ensures CanonicalKey(ApiKeyHeader) == "X-Api-Key"
  {
    ApiKeyHeaderIsToken();
    CanonicalKeyOfToken(ApiKeyHeader);
    ApiKeyHeaderCased();
  }

  /** Two names that differ only in letter case. */
  predicate SameIgnoringCase(a: string, b: string)
  {
    |a| == |b| && forall i :: 0 <= i < |a| ==> ToLower(a[i]) == ToLower(b[i])
  }

  lemma {:induction false} CaseWordsIgnoresCase(a: string, b: string, upper: bool)
    requires SameIgnoringCase(a, b)
    ensures CaseWords(a, upper) == CaseWords(b, upper)
  {
    if a != [] {
      assert ToLower(a[0]) == ToLower(b[0]);
      assert a[0] == '-' <==> b[0] == '-';
      assert SameIgnoringCase(a[1..], b[1..]) by {
        forall i | 0 <= i < |a[1..]|
          ensures ToLower(a[1..][i]) == ToLower(b[1..][i])
        {
          assert a[1..][i] == a[i + 1] && b[1..][i] == b[i + 1];
        }
      }
      CaseWordsIgnoresCase(a[1..], b[1..], a[0] == '-');
    }
  }

  /** Header names match regardless of letter case: both spellings have one canonical form, so read the same value. */
  lemma CanonicalKeyIgnoresCase(a: string, b: string)
    requires SameIgnoringCase(a, b)
    requires forall i :: 0 <= i < |a| ==> IsTokenChar(a[i])
    ensures CanonicalKey(a) == CanonicalKey(b)
    ensures forall header: Header :: Get(header, a) == Get(header, b)
  {
    assert forall i :: 0 <= i < |b| ==> IsTokenChar(b[i]) by {
      forall i | 0 <= i < |b|
        ensures IsTokenChar(b[i])
      {
        assert ToLower(a[i]) == ToLower(b[i]);
      }
    }
    CaseWordsIgnoresCase(a, b, true);
  }

  /** "x-api-key" is a valid field name that differs from "X-API-Key" only in case. */
  lemma LowerCaseKeyName()
    ensures SameIgnoringCase("x-api-key", ApiKeyHeader)
    ensures forall i :: 0 <= i < |"x-api-key"| ==> IsTokenChar("x-api-key"[i])
  {
    var lower, key := "x-api-key", ApiKeyHeader;
    forall i | 0 <= i < |lower|
      ensures IsTokenChar(lower[i]) && ToLower(lower[i]) == ToLower(key[i])
    {
      assert lower[i] in "x-apikey";
    }
  }

  /** Only the first value of a repeated key header is consulted. */
  lemma FirstValueDecides(request: Request, values: seq<string>)
    requires "X-Api-Key" in request.header && request.header["X-Api-Key"] == values
    requires |values| > 0
    ensures Decide(request) == Forward <==> values[0] == ApiKey
  {
    ApiKeyHeaderCanonical();
  }

  /**
   * The requests the test suite sends: a header built with
   * Add("X-API-Key", "RAHASIA") on top of other fields is forwarded, and so
   * is one that spells the name in lower case.
   */
  lemma {:induction false} TestRequestsForwarded(verb: string, path: string, header: Header)
    requires "X-Api-Key" !in header
    ensures Decide(Request(verb, path, Add(header, "X-API-Key", "RAHASIA"))) == Forward
    ensures Decide(Request(verb, path, Add(header, "x-api-key", "RAHASIA"))) == Forward
  {
    ApiKeyHeaderCanonical();
    LowerCaseKeyName();
    CanonicalKeyIgnoresCase("x-api-key", ApiKeyHeader);
    var canonical := CanonicalKey(ApiKeyHeader);
    assert Add(header, "X-API-Key", "RAHASIA")[canonical] == ["RAHASIA"];
    assert Add(header, "x-api-key", "RAHASIA")[canonical] == ["RAHASIA"];
  }
}
