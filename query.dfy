/**
 * The listing request of `_get_api_page` (src/download.py): the URL of one
 * page of the user's completed jobs, with a `jobType` filter chosen by the
 * download kind.
 */
module Query {
  import opened Wrappers
  import opened Strings
  import opened Config

  const Endpoint: string := "https://www.midjourney.com/api/app/recent-jobs/"

  /** The filter appended for each download kind; `All` appends nothing. */
  function JobTypeFilter(kind: DownloadKind): string
  {
    match kind
    case Upscales => "&jobType=upscale"
    case Grids => "&jobType=grid"
    case All => ""
  }

  /**
   * The URL requested for page `page`. The order and the user id are put in
   * as they are, without URL-encoding.
   */
  function ApiUrl(userId: string, p: Parameters, page: nat): string
  {
    Endpoint + "?orderBy=" + p.orderBy + "&jobStatus=completed&userId=" + userId
    + "&dedupe=true&refreshApi=0&amount=50&page=" + NatToString(page)
    + JobTypeFilter(p.kind)
  }

  type Param = (string, string)

  /** The query parameters a page request is meant to carry, in order. */
  function QueryParams(userId: string, p: Parameters, page: nat): seq<Param>
  {
    [("orderBy", p.orderBy), ("jobStatus", "completed"), ("userId", userId),
     ("dedupe", "true"), ("refreshApi", "0"), ("amount", "50"), ("page", NatToString(page))]
    + match p.kind
      case Upscales => [("jobType", "upscale")]
      case Grids => [("jobType", "grid")]
      case All => []
  }

  function EncodeParam(param: Param): string
  {
    param.0 + "=" + param.1
  }

  /** `key=value` pairs joined by `&`. */
  function EncodeQuery(params: seq<Param>): string
  {
    if |params| == 0 then ""
    else if |params| == 1 then EncodeParam(params[0])
    else EncodeParam(params[0]) + "&" + EncodeQuery(params[1..])
  }

  /** Splits `key=value` at its first `=`. */
  function DecodeParam(s: string): Param
  {
    var i := IndexOf(s, '=');
    if i < |s| then (s[..i], s[i + 1..]) else (s, "")
  }

  /** Splits a query string at every `&` and each piece at its first `=`. */
  function DecodeQuery(q: string): (params: seq<Param>)
    ensures |params| >= 1
    decreases |q|
  {
    var i := IndexOf(q, '&');
    if i == |q| then [DecodeParam(q)] else [DecodeParam(q[..i])] + DecodeQuery(q[i + 1..])
  }

  /** The part of a URL after its first `?`. */
  function QueryOf(url: string): string
  {
    var i := IndexOf(url, '?');
    if i < |url| then url[i + 1..] else ""
  }

  /** The value of the first parameter named `key`. */
  function Lookup(params: seq<Param>, key: string): Option<string>
  {
    if |params| == 0 then None
    else if params[0].0 == key then Some(params[0].1)
    else Lookup(params[1..], key)
  }

  /** Parameters that survive encoding: no `&` anywhere and no `=` in a key. */
  predicate Encodable(params: seq<Param>)
  {
    forall k :: 0 <= k < |params| ==>
      '&' !in params[k].0 && '&' !in params[k].1 && '=' !in params[k].0
  }

  lemma DecodeEncodeParam(param: Param)
    requires '=' !in param.0
    ensures DecodeParam(EncodeParam(param)) == param
  {
    var s := EncodeParam(param);
    assert s[|param.0|] == '=';
    assert IndexOf(s, '=') == |param.0|;
    assert s[..|param.0|] == param.0;
    assert s[|param.0| + 1..] == param.1;
  }

  /** Decoding an encoded query gives back its parameters. */
  lemma {:induction false} DecodeEncode(params: seq<Param>)
    requires |params| >= 1 && Encodable(params)
    ensures DecodeQuery(EncodeQuery(params)) == params
  {
    var head := EncodeParam(params[0]);
    DecodeEncodeParam(params[0]);
    assert '&' !in head;
    if |params| == 1 {
      assert IndexOf(head, '&') == |head|;
    } else {
      var q := EncodeQuery(params);
      assert q == head + "&" + EncodeQuery(params[1..]);
      assert q[|head|] == '&';
      assert IndexOf(q, '&') == |head|;
      assert q[..|head|] == head;
      assert q[|head| + 1..] == EncodeQuery(params[1..]);
      DecodeEncode(params[1..]);
    }
  }

  /*
   * Bookkeeping for ApiUrlEncodesParams. The URL is one long concatenation of
   * literals; asking the verifier to regroup it in one step is too costly.
   * Flatten and Nest regroup it with the pieces left abstract, so only their
   * order matters; the *Literal lemmas and EndpointHost split each literal of
   * the URL into the pieces the encoder produces.
   */

  /** Regrouping the pieces of the URL; the pieces are left abstract so that only their order matters. */
  lemma Flatten(e: string, o: string, u: string, n: string, f: string,
                q0: string, a: string, k1: string, k2: string, k3: string, k4: string, k5: string, k6: string, k7: string,
                q: string, m: string, t: string)
    requires q == q0 + k1 && m == a + k2 + a + k3 && t == a + k4 + a + k5 + a + k6 + a + k7
    ensures e + q + o + m + u + t + n + f
         == e + q0 + k1 + o + a + k2 + a + k3 + u + a + k4 + a + k5 + a + k6 + a + k7 + n + f
  {
  }

  lemma Nest(e: string, o: string, u: string, n: string, f: string,
             q0: string, a: string, k1: string, k2: string, k3: string, k4: string, k5: string, k6: string, k7: string)
    ensures e + q0 + (k1 + o + a + (k2 + a + (k3 + u + a + (k4 + a + (k5 + a + (k6 + a + (k7 + n + f)))))))
         == e + q0 + k1 + o + a + k2 + a + k3 + u + a + k4 + a + k5 + a + k6 + a + k7 + n + f
  {
  }

  lemma QueryLiteral()
    ensures "?orderBy=" == "?" + "orderBy="
  {
  }

  lemma UserLiteral()
    ensures "&jobStatus=completed&userId=" == "&" + "jobStatus=completed" + "&" + "userId="
  {
  }

  lemma DedupeLiteral()
    ensures "&dedupe=true&refreshApi=0" == "&" + "dedupe=true" + "&" + "refreshApi=0"
  {
  }

  lemma AmountLiteral()
    ensures "&amount=50&page=" == "&" + "amount=50" + "&" + "page="
  {
  }

  lemma PageLiteral()
    ensures "&dedupe=true&refreshApi=0&amount=50&page="
         == "&" + "dedupe=true" + "&" + "refreshApi=0" + "&" + "amount=50" + "&" + "page="
  {
    DedupeLiteral();
    AmountLiteral();
    assert "&dedupe=true&refreshApi=0&amount=50&page=" == "&dedupe=true&refreshApi=0" + "&amount=50&page=";
  }

  lemma EndpointHost()
    ensures Endpoint == "https://www.midjourney.com" + "/api/app/recent-jobs/"
    ensures '?' !in "https://www.midjourney.com"
  {
  }

  lemma EndpointHasNoQuery()
    ensures '?' !in Endpoint
  {
    EndpointHost();
    assert '?' !in "/api/app/recent-jobs/";
  }

  /** The query of `base?q` is `q` when `base` has no `?`. */
  lemma QueryOfJoin(base: string, q: string)
    requires '?' !in base
    ensures QueryOf(base + "?" + q) == q
  {
    var url := base + "?" + q;
    assert url[|base|] == '?';
    assert IndexOf(url, '?') == |base|;
    assert url[|base| + 1..] == q;
  }

  lemma EncodedPage(userId: string, p: Parameters, page: nat)
    ensures EncodeQuery(QueryParams(userId, p, page)[6..]) == "page=" + NatToString(page) + JobTypeFilter(p.kind)
  {
  }

  lemma EncodedTail(userId: string, p: Parameters, page: nat)
    ensures var n, filter := NatToString(page), JobTypeFilter(p.kind);
      EncodeQuery(QueryParams(userId, p, page)[3..])
      == "dedupe=true" + "&" + ("refreshApi=0" + "&" + ("amount=50" + "&" + ("page=" + n + filter)))
  {
    var params := QueryParams(userId, p, page);
    EncodedPage(userId, p, page);
    assert params[3..][1..] == params[4..] && params[4..][1..] == params[5..] && params[5..][1..] == params[6..];
    assert EncodeQuery(params[5..]) == "amount=50" + "&" + EncodeQuery(params[6..]);
    assert EncodeQuery(params[4..]) == "refreshApi=0" + "&" + EncodeQuery(params[5..]);
  }

  lemma EncodedParams(userId: string, p: Parameters, page: nat)
    ensures var n, filter := NatToString(page), JobTypeFilter(p.kind);
      EncodeQuery(QueryParams(userId, p, page))
      == "orderBy=" + p.orderBy + "&" + ("jobStatus=completed" + "&" + ("userId=" + userId + "&"
         + ("dedupe=true" + "&" + ("refreshApi=0" + "&" + ("amount=50" + "&" + ("page=" + n + filter))))))
  {
    var params := QueryParams(userId, p, page);
    EncodedTail(userId, p, page);
    assert params[1..][1..] == params[2..] && params[2..][1..] == params[3..];
    assert EncodeQuery(params[2..]) == "userId=" + userId + "&" + EncodeQuery(params[3..]);
    assert EncodeQuery(params[1..]) == "jobStatus=completed" + "&" + EncodeQuery(params[2..]);
  }

  /** The page URL is the endpoint, `?`, and the encoded parameter list. */
  lemma ApiUrlEncodesParams(userId: string, p: Parameters, page: nat)
    ensures ApiUrl(userId, p, page) == Endpoint + "?" + EncodeQuery(QueryParams(userId, p, page))
  {
    var n, filter := NatToString(page), JobTypeFilter(p.kind);
    EncodedParams(userId, p, page);
    QueryLiteral();
    UserLiteral();
    PageLiteral();
    Flatten(Endpoint, p.orderBy, userId, n, filter, "?", "&", "orderBy=", "jobStatus=completed", "userId=",
            "dedupe=true", "refreshApi=0", "amount=50", "page=",
            "?orderBy=", "&jobStatus=completed&userId=", "&dedupe=true&refreshApi=0&amount=50&page=");
    Nest(Endpoint, p.orderBy, userId, n, filter, "?", "&", "orderBy=", "jobStatus=completed", "userId=",
         "dedupe=true", "refreshApi=0", "amount=50", "page=");
  }

  lemma QueryParamsEncodable(userId: string, p: Parameters, page: nat)
    requires '&' !in userId && '&' !in p.orderBy
    ensures Encodable(QueryParams(userId, p, page))
  {
    assert '&' !in NatToString(page);
  }

  /**
   * When neither the order nor the user id holds `&`, reading the page URL
   * back gives exactly the intended parameters: `orderBy`, `jobStatus=completed`,
   * `userId`, `dedupe=true`, `refreshApi=0`, `amount=50`, `page`, and a
   * `jobType` of `upscale` or `grid` for those kinds and none for `All`.
   */
  lemma ApiUrlQuery(userId: string, p: Parameters, page: nat)
    requires '&' !in userId && '&' !in p.orderBy
    ensures DecodeQuery(QueryOf(ApiUrl(userId, p, page))) == QueryParams(userId, p, page)
  {
    var params := QueryParams(userId, p, page);
    ApiUrlEncodesParams(userId, p, page);
    EndpointHasNoQuery();
    QueryOfJoin(Endpoint, EncodeQuery(params));
    QueryParamsEncodable(userId, p, page);
    DecodeEncode(params);
  }

  lemma LookupFixed(userId: string, p: Parameters, page: nat)
    ensures var q := QueryParams(userId, p, page);
      && Lookup(q, "orderBy") == Some(p.orderBy)
      && Lookup(q, "jobStatus") == Some("completed")
      && Lookup(q, "userId") == Some(userId)
  {
    var q := QueryParams(userId, p, page);
    assert Lookup(q, "jobStatus") == Lookup(q[1..], "jobStatus");
    assert Lookup(q, "userId") == Lookup(q[1..], "userId") == Lookup(q[2..], "userId");
  }

  lemma LookupAmount(userId: string, p: Parameters, page: nat)
    ensures Lookup(QueryParams(userId, p, page), "amount") == Some("50")
  {
    var q := QueryParams(userId, p, page);
    assert Lookup(q, "amount") == Lookup(q[1..], "amount") == Lookup(q[2..], "amount") == Lookup(q[3..], "amount") == Lookup(q[4..], "amount") == Lookup(q[5..], "amount");
  }

  lemma LookupPage(userId: string, p: Parameters, page: nat)
    ensures Lookup(QueryParams(userId, p, page), "page") == Some(NatToString(page))
  {
    var q := QueryParams(userId, p, page);
    assert Lookup(q, "page") == Lookup(q[1..], "page") == Lookup(q[2..], "page") == Lookup(q[3..], "page") == Lookup(q[4..], "page") == Lookup(q[5..], "page") == Lookup(q[6..], "page");
  }

  lemma LookupJobType(userId: string, p: Parameters, page: nat)
    ensures Lookup(QueryParams(userId, p, page), "jobType") == match p.kind
      case Upscales => Some("upscale")
      case Grids => Some("grid")
      case All => None
  {
    var q := QueryParams(userId, p, page);
    assert Lookup(q, "jobType") == Lookup(q[1..], "jobType") == Lookup(q[2..], "jobType") == Lookup(q[3..], "jobType") == Lookup(q[4..], "jobType") == Lookup(q[5..], "jobType") == Lookup(q[6..], "jobType") == Lookup(q[7..], "jobType");
  }

  /** What each parameter of a page request reads back as. */
  lemma ApiUrlCarries(userId: string, p: Parameters, page: nat)
    requires '&' !in userId && '&' !in p.orderBy
    ensures var q := DecodeQuery(QueryOf(ApiUrl(userId, p, page)));
      && Lookup(q, "orderBy") == Some(p.orderBy)
      && Lookup(q, "jobStatus") == Some("completed")
      && Lookup(q, "userId") == Some(userId)
      && Lookup(q, "amount") == Some("50")
      && Lookup(q, "page") == Some(NatToString(page))
      && Lookup(q, "jobType") == match p.kind
           case Upscales => Some("upscale")
           case Grids => Some("grid")
           case All => None
  {
    ApiUrlQuery(userId, p, page);
    LookupFixed(userId, p, page);
    LookupAmount(userId, p, page);
    LookupPage(userId, p, page);
    LookupJobType(userId, p, page);
  }

  /** Different pages are requested at different URLs. */
  lemma ApiUrlPageInjective(userId: string, p: Parameters, page1: nat, page2: nat)
    requires page1 != page2
    ensures ApiUrl(userId, p, page1) != ApiUrl(userId, p, page2)
  {
    var front := Endpoint + "?orderBy=" + p.orderBy + "&jobStatus=completed&userId=" + userId
      + "&dedupe=true&refreshApi=0&amount=50&page=";
    var n1, n2 := NatToString(page1), NatToString(page2);
    var filter := JobTypeFilter(p.kind);
    var url1, url2 := front + n1 + filter, front + n2 + filter;
    if url1 == url2 {
      assert |n1| == |n2|;
      assert n1 == url1[|front|..|front| + |n1|];
      assert n2 == url2[|front|..|front| + |n2|];
      NatToStringInjective(page1, page2);
    }
  }
}
