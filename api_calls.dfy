/**
 * The API client: one requester per base URL, shared by every service
 * object built for the same environment, holding the Authorization header;
 * URLs are the base URL followed by an endpoint. The HTTP verbs themselves
 * are not modelled; each `call_*` helper is modelled by the URL it
 * requests.
 */
module ApiCalls {
  import opened Common

  /** `Env`: the deployment environments and their values. */
  datatype Env = Prod | Qa | Dev
  {
    function Value(): string
    {
      match this
      case Prod => "prod"
      case Qa => "qa"
      case Dev => "dev"
    }
  }

  /** `ApiService.BASE_URLS`, keyed by environment value. */
  const BaseUrls: map<string, string> := map[
    Prod.Value() := "https://app.kyss.ai/apis/",
    Qa.Value() := "https://qa.appv2.kyss.ai/apis/",
    Dev.Value() := "http://127.0.0.1:8000/apis/"
  ]

  const OtpEndpoint: string := "accounts/signin/otp"
  const ValidateEndpoint: string := "accounts/signin/otp/validate"
  const TaxPayerEndpoint: string := "gst_lookup/taxpayer-info?gstin="
  const TaxFilingStatusEndpoint: string := "supplier/gstr-filing-data?gstin="
  const TaxFilingEndpoint: string := "internal/gst/filing?gstin={}&return_period={}"
  const PreRegisterFileUploadEndpoint: string := "accounts/pre-register/file/upload"

  /** The headers of a new requester: an Authorization header only for a truthy token. */
  function InitialHeaders(token: Option<string>): (h: map<string, string>)
    ensures "Authorization" in h <==> Truthy(token)
    ensures Truthy(token) ==> h == map["Authorization" := token.value]
    ensures !Truthy(token) ==> h == map[]
  {
    if Truthy(token) then map["Authorization" := token.value] else map[]
  }

  /** `SimpleRequests`: a base URL and the headers sent with every request. */
  class SimpleRequests {
    var baseUrl: string
    var headers: map<string, string>

    /** `__init__`: empty headers, then `set_token` when the token is truthy. */
    constructor(baseUrl: string, token: Option<string>)
      ensures this.baseUrl == baseUrl
      ensures headers == InitialHeaders(token)
    {
      this.baseUrl := baseUrl;
      headers := map[];
      new;
      if Truthy(token) {
        SetToken(token.value);
      }
    }

    /** `set_token`: overwrites the Authorization header and keeps every other header. */
    method SetToken(token: string)
      modifies this
      ensures headers == old(headers)["Authorization" := token]
      ensures baseUrl == old(baseUrl)
    {
      headers := headers["Authorization" := token];
    }

    /** `get_url`: the base URL followed by the endpoint. */
    function GetUrl(endpoint: string): (url: string)
      reads this
      ensures |url| == |baseUrl| + |endpoint|
      ensures url[..|baseUrl|] == baseUrl && url[|baseUrl|..] == endpoint
    {
      baseUrl + endpoint
    }
  }

  /** `set_token` replaces the token and touches no other header. */
  lemma SetTokenKeepsOthers(headers: map<string, string>, token: string, k: string)
    requires k != "Authorization"
    ensures var h := headers["Authorization" := token];
            h["Authorization"] == token &&
            (k in h <==> k in headers) &&
            (k in headers ==> h[k] == headers[k])
  {
  }

  /** The class-level `_instances` cache of `SimpleRequests`. */
  class RequesterCache {
    var instances: map<string, SimpleRequests>

    /** Every cached requester is keyed by its own base URL. */
    ghost predicate Valid()
      reads this, instances.Values
    {
      forall u :: u in instances ==> instances[u].baseUrl == u
    }

    constructor()
      ensures instances == map[]
      ensures Valid()
    {
      instances := map[];
    }

    /**
     * `get_instance`: the cached requester for `baseUrl`, created with
     * `token` on first use; a token given for a cached base URL is ignored.
     */
    method GetInstance(baseUrl: string, token: Option<string>) returns (r: SimpleRequests)
      requires Valid()
      modifies this
      ensures Valid()
      ensures r.baseUrl == baseUrl
      ensures baseUrl in old(instances) ==> r == old(instances)[baseUrl] && instances == old(instances)
      ensures baseUrl !in old(instances) ==>
                fresh(r) && r.headers == InitialHeaders(token) && instances == old(instances)[baseUrl := r]
      ensures baseUrl in instances && instances[baseUrl] == r
    {
      if baseUrl !in instances {
        var created := new SimpleRequests(baseUrl, token);
        instances := instances[baseUrl := created];
      }
      r := instances[baseUrl];
    }
  }

  /** `ApiService`: the requester shared by every service of one environment. */
  class ApiService {
    const requester: SimpleRequests

    constructor(requester: SimpleRequests)
      ensures this.requester == requester
    {
      this.requester := requester;
    }

    /** The URL `call_taxpayer_endpoint` requests. */
    function TaxpayerUrl(gstin: string): (url: string)
      reads requester
      ensures url == requester.baseUrl + TaxPayerEndpoint + gstin
    {
      requester.GetUrl(TaxPayerEndpoint + gstin)
    }

    /** The URL `call_tax_filing_status_endpoint` requests. */
    function TaxFilingStatusUrl(gstin: string): (url: string)
      reads requester
      ensures url == requester.baseUrl + TaxFilingStatusEndpoint + gstin
    {
      requester.GetUrl(TaxFilingStatusEndpoint + gstin)
    }

    /** The URL `call_tax_filing_endpoint` requests. */
    function TaxFilingUrl(gstin: string, returnPeriod: string): (url: string)
      reads requester
      ensures url == requester.baseUrl + "internal/gst/filing?gstin=" + gstin + "&return_period=" + returnPeriod
    {
      FilingEndpointFormat(gstin, returnPeriod);
      requester.GetUrl(Format(TaxFilingTemplate, [gstin, returnPeriod]))
    }

    /** The URLs the OTP, validate and upload calls post to. */
    function OtpUrl(): string
      reads requester
    {
      requester.GetUrl(OtpEndpoint)
    }

    function ValidateUrl(): string
      reads requester
    {
      requester.GetUrl(ValidateEndpoint)
    }

    function PreRegisterFileUploadUrl(): string
      reads requester
    {
      requester.GetUrl(PreRegisterFileUploadEndpoint)
    }
  }

  /**
   * `ApiService(environment, token)`: looks the base URL up, raising
   * KeyError for an unknown environment before any requester is made.
   */
  method NewApiService(cache: RequesterCache, environment: string, token: Option<string>) returns (r: Result<ApiService>)
    requires cache.Valid()
    modifies cache
    ensures cache.Valid()
    ensures r.Err? <==> environment !in BaseUrls
    ensures r.Err? ==> r.error == KeyError && cache.instances == old(cache.instances)
    ensures r.Ok? ==> fresh(r.value) && r.value.requester.baseUrl == BaseUrls[environment]
    ensures r.Ok? ==> BaseUrls[environment] in cache.instances &&
                      r.value.requester == cache.instances[BaseUrls[environment]]
    ensures r.Ok? && BaseUrls[environment] in old(cache.instances) ==>
              r.value.requester == old(cache.instances)[BaseUrls[environment]] && cache.instances == old(cache.instances)
    ensures r.Ok? && BaseUrls[environment] !in old(cache.instances) ==>
              fresh(r.value.requester) && r.value.requester.headers == InitialHeaders(token)
  {
    if environment !in BaseUrls {
      return Err(KeyError);
    }
    var requester := cache.GetInstance(BaseUrls[environment], token);
    var service := new ApiService(requester);
    return Ok(service);
  }

  /** Two services built for one environment share one requester, and the second token is ignored. */
  method SameEnvironmentShares(cache: RequesterCache, environment: string, first: Option<string>, second: Option<string>)
    returns (a: Result<ApiService>, b: Result<ApiService>)
    requires cache.Valid()
    requires environment in BaseUrls && BaseUrls[environment] !in cache.instances
    modifies cache
    ensures a.Ok? && b.Ok? && a.value.requester == b.value.requester
    ensures b.value.requester.headers == InitialHeaders(first)
  {
    a := NewApiService(cache, environment, first);
    b := NewApiService(cache, environment, second);
  }

  /** A format template as `str.format` parses it: literal text and `{}` fields. */
  datatype Piece = Literal(text: string) | Field

  /** The template text a parse comes from. */
  function Render(ps: seq<Piece>): string
  {
    if ps == [] then ""
    else (if ps[0].Field? then "{}" else ps[0].text) + Render(ps[1..])
  }

  function FieldCount(ps: seq<Piece>): nat
  {
    if ps == [] then 0 else (if ps[0].Field? then 1 else 0) + FieldCount(ps[1..])
  }

  /**
   * `template.format(*args)`: each field takes the next argument in order;
   * extra arguments are ignored.
   */
  function Format(ps: seq<Piece>, args: seq<string>): string
    requires FieldCount(ps) <= |args|
  {
    if ps == [] then ""
    else if ps[0].Field? then args[0] + Format(ps[1..], args[1..])
    else ps[0].text + Format(ps[1..], args)
  }

  /** Filling every field with the text `{}` gives the template back. */
  lemma {:induction false} FormatWithFieldsRenders(ps: seq<Piece>, args: seq<string>)
    requires FieldCount(ps) <= |args|
    requires forall i :: 0 <= i < |args| ==> args[i] == "{}"
    ensures Format(ps, args) == Render(ps)
  {
    if ps != [] {
      if ps[0].Field? {
        assert args[0] == "{}";
        FormatWithFieldsRenders(ps[1..], args[1..]);
      } else {
        FormatWithFieldsRenders(ps[1..], args);
      }
    }
  }

  /** The parse of `TAX_FILING_END_POINT`. */
  const TaxFilingTemplate: seq<Piece> := [Literal("internal/gst/filing?gstin="), Field, Literal("&return_period="), Field]

  /**
   * The parse renders back to the endpoint text, and formatting it with the
   * field markers themselves gives the endpoint text unchanged.
   */
  lemma TaxFilingTemplateParse()
    ensures Render(TaxFilingTemplate) == TaxFilingEndpoint
    ensures FieldCount(TaxFilingTemplate) == 2
    ensures Format(TaxFilingTemplate, ["{}", "{}"]) == TaxFilingEndpoint
  {
    var t := TaxFilingTemplate;
    var t1, t2, t3 := t[1..], t[2..], t[3..];
    assert t1 == [Field, Literal("&return_period="), Field] && t2 == [Literal("&return_period="), Field] && t3 == [Field];
    assert t3[1..] == [];
    assert Render(t3) == "{}" + "";
    var tail := Render(t2);
    assert tail == "&return_period=" + ("{}" + "");
    assert "{}" + "" == "{}";
    assert Render(t) == "internal/gst/filing?gstin=" + ("{}" + tail);
    EndpointText();
    FormatWithFieldsRenders(t, ["{}", "{}"]);
  }

  lemma EndpointText()
    ensures "internal/gst/filing?gstin=" + ("{}" + ("&return_period=" + "{}")) == TaxFilingEndpoint
  {
  }

  /** The filing endpoint with the GSTIN and the return period substituted in order. */
  lemma FilingEndpointFormat(gstin: string, returnPeriod: string)
    ensures FieldCount(TaxFilingTemplate) == 2
    ensures Format(TaxFilingTemplate, [gstin, returnPeriod]) == "internal/gst/filing?gstin=" + gstin + "&return_period=" + returnPeriod
  {
    TaxFilingTemplateParse();
    var t := TaxFilingTemplate;
    var args := [gstin, returnPeriod];
    var t1, t2, t3 := t[1..], t[2..], t[3..];
    assert t1 == [Field, Literal("&return_period="), Field] && t2 == [Literal("&return_period="), Field] && t3 == [Field];
    assert t3[1..] == [];
    assert args[1..] == [returnPeriod] && args[1..][1..] == [];
    assert Format(t3, args[1..]) == returnPeriod;
    assert Format(t1, args) == gstin + ("&return_period=" + returnPeriod);
  }

  /** The GSTIN can be read back out of a taxpayer URL, so distinct GSTINs give distinct URLs. */
  lemma TaxpayerUrlInjective(base: string, a: string, b: string)
    requires base + TaxPayerEndpoint + a == base + TaxPayerEndpoint + b
    ensures a == b
  {
    var p := base + TaxPayerEndpoint;
    assert (p + a)[|p|..] == a;
    assert (p + b)[|p|..] == b;
  }

  /** The filing-status URL determines the GSTIN it was built for. */
  lemma TaxFilingStatusUrlInjective(s: ApiService, a: string, b: string)
    requires s.TaxFilingStatusUrl(a) == s.TaxFilingStatusUrl(b)
    ensures a == b
  {
    var p := s.requester.baseUrl + TaxFilingStatusEndpoint;
    assert (p + a)[|p|..] == a;
    assert (p + b)[|p|..] == b;
  }

  /** Two endpoints that differ at position `j` give different URLs under any base. */
  lemma DifferAt(base: string, x: string, y: string, j: nat)
    requires j < |x| && j < |y| && x[j] != y[j]
    ensures base + x != base + y
  {
    assert (base + x)[|base| + j] == x[j];
    assert (base + y)[|base| + j] == y[j];
  }

  /**
   * The requests a service makes never go to the same URL: the OTP,
   * validation and upload calls, and the taxpayer, filing-status and
   * filing lookups for any GSTINs and return period, all differ.
   */
  lemma RequestUrlsDistinct(s: ApiService, g1: string, g2: string, period: string)
    ensures s.OtpUrl() != s.ValidateUrl()
    ensures s.OtpUrl() != s.PreRegisterFileUploadUrl() && s.ValidateUrl() != s.PreRegisterFileUploadUrl()
    ensures s.TaxpayerUrl(g1) != s.TaxFilingStatusUrl(g2)
    ensures s.TaxpayerUrl(g1) != s.TaxFilingUrl(g2, period) && s.TaxFilingStatusUrl(g1) != s.TaxFilingUrl(g2, period)
    ensures s.TaxpayerUrl(g1) !in {s.OtpUrl(), s.ValidateUrl(), s.PreRegisterFileUploadUrl()}
    ensures s.TaxFilingStatusUrl(g1) !in {s.OtpUrl(), s.ValidateUrl(), s.PreRegisterFileUploadUrl()}
    ensures s.TaxFilingUrl(g1, period) !in {s.OtpUrl(), s.ValidateUrl(), s.PreRegisterFileUploadUrl()}
  {
    var base := s.requester.baseUrl;
    var taxpayer := TaxPayerEndpoint + g1;
    var status1, status2 := TaxFilingStatusEndpoint + g1, TaxFilingStatusEndpoint + g2;
    var filing1 := "internal/gst/filing?gstin=" + g1 + "&return_period=" + period;
    var filing2 := "internal/gst/filing?gstin=" + g2 + "&return_period=" + period;
    assert base + OtpEndpoint != base + ValidateEndpoint by {
      assert |base + OtpEndpoint| != |base + ValidateEndpoint|;
    }
    DifferAt(base, OtpEndpoint, PreRegisterFileUploadEndpoint, 9);
    DifferAt(base, ValidateEndpoint, PreRegisterFileUploadEndpoint, 9);
    assert base + taxpayer == base + TaxPayerEndpoint + g1;
    assert base + status1 == base + TaxFilingStatusEndpoint + g1;
    assert base + status2 == base + TaxFilingStatusEndpoint + g2;
    assert base + filing1 == base + "internal/gst/filing?gstin=" + g1 + "&return_period=" + period;
    assert base + filing2 == base + "internal/gst/filing?gstin=" + g2 + "&return_period=" + period;
    DifferAt(base, taxpayer, status2, 0);
    DifferAt(base, taxpayer, filing2, 0);
    DifferAt(base, status1, filing2, 0);
    DifferAt(base, taxpayer, OtpEndpoint, 0);
    DifferAt(base, taxpayer, ValidateEndpoint, 0);
    DifferAt(base, taxpayer, PreRegisterFileUploadEndpoint, 0);
    DifferAt(base, status1, OtpEndpoint, 0);
    DifferAt(base, status1, ValidateEndpoint, 0);
    DifferAt(base, status1, PreRegisterFileUploadEndpoint, 0);
    DifferAt(base, filing1, OtpEndpoint, 0);
    DifferAt(base, filing1, ValidateEndpoint, 0);
    DifferAt(base, filing1, PreRegisterFileUploadEndpoint, 0);
  }
}
