/** The client of the exchangerate.host API: it adds the access key to every
    request, sorts the decoded reply into a pass-through, a structured
    client error, an unknown client error or a lookup failure that escapes,
    and picks one quote out of a `live` reply.

    The HTTP round trip is not modelled: the decoded body the server answers
    with is an input of each operation, and the request the client would
    send is part of its result. */
module ExchangerateClient {
  import opened PyRuntime
  import opened JsonModel

  /** The two settings the client reads when it is constructed. */
  datatype Settings = Settings(url: string, accessKey: string)

  /** A request URL. `Joined` stands for `urljoin(base, relative)`, which is
      kept as an unevaluated term. */
  datatype Url = Joined(base: string, relative: string)

  /** What the client hands to the HTTP layer: one GET with query parameters. */
  datatype Request = Request(url: Url, params: map<string, string>)

  /** How a client call ends. `ClientError` and `UnknownClientError` are the
      client's own exception classes; `Uncaught` is any other exception. */
  datatype ClientOutcome<+T> =
    | Ok(value: T)
    | ClientError(message: Json)
    | UnknownClientError
    | Uncaught(exception: PyException)
  {
    /** The outcomes a caller catches as client errors. */
    predicate IsClientError() {
      ClientError? || UnknownClientError?
    }

    /** The `message` attribute of a client error. */
    function Message(): (m: Json)
      requires IsClientError()
      ensures UnknownClientError? ==> m == JString(UnknownMessage)
      ensures ClientError? ==> m == message
    {
      if ClientError? then message else JString(UnknownMessage)
    }
  }

  /** One call: the request that went out and how the call ended. */
  datatype Call<+T> = Call(request: Request, outcome: ClientOutcome<T>)

  const AccessKeyParam: string := "access_key"
  const UnknownMessage: string := "Unknown error"
  /** The value of `success` that the client accepts: the STRING "true". */
  const SuccessMarker: string := "true"

  /** The body is an object whose `success` field is the string "true". */
  predicate SuccessFlagSet(body: Json) {
    body.JObject? && "success" in body.fields && body.fields["success"] == JString(SuccessMarker)
  }

  /** The body is an object with a `success` field other than the string "true". */
  predicate ReportsFailure(body: Json) {
    body.JObject? && "success" in body.fields && body.fields["success"] != JString(SuccessMarker)
  }

  /** The query parameters actually sent: no (or empty) caller parameters
      give the access key alone; otherwise the caller's parameters with the
      access key added, replacing any value the caller gave it. */
  function MergeParams(params: Option<map<string, string>>, accessKey: string): (r: map<string, string>)
    ensures AccessKeyParam in r && r[AccessKeyParam] == accessKey
    ensures forall p :: p in r && p != AccessKeyParam ==> params.Some? && p in params.value && r[p] == params.value[p]
    ensures params.Some? ==> forall p :: p in params.value ==> p in r
    ensures params.Some? ==> forall p :: p in params.value && p != AccessKeyParam ==> r[p] == params.value[p]
  {
    match params
    case None => map[AccessKeyParam := accessKey]
    case Some(p) => if |p| == 0 then map[AccessKeyParam := accessKey] else p[AccessKeyParam := accessKey]
  }

  /** `_get`: send the request, then classify the decoded body. */
  function Get(settings: Settings, url: Url, params: Option<map<string, string>>, body: Json): (r: Call<Json>)
    ensures r.request.url == url
    ensures r.request.params == MergeParams(params, settings.accessKey)
    ensures r.outcome.Ok? <==> SuccessFlagSet(body)
    ensures r.outcome.Ok? ==> r.outcome.value == body
    ensures r.outcome.ClientError? <==>
      ReportsFailure(body) && "error" in body.fields
      && body.fields["error"].JObject? && "info" in body.fields["error"].fields
    ensures r.outcome.ClientError? ==> r.outcome.message == body.fields["error"].fields["info"]
    ensures r.outcome.UnknownClientError? <==>
      ReportsFailure(body)
      && ("error" !in body.fields
          || (body.fields["error"].JObject? && "info" !in body.fields["error"].fields))
    ensures r.outcome.Uncaught? <==>
      !body.JObject? || "success" !in body.fields
      || (ReportsFailure(body) && "error" in body.fields && !body.fields["error"].JObject?)
    ensures !body.JObject? ==> r.outcome == Uncaught(TypeError)
    ensures body.JObject? && "success" !in body.fields ==> r.outcome == Uncaught(KeyError("success"))
    ensures ReportsFailure(body) && "error" in body.fields && !body.fields["error"].JObject?
            ==> r.outcome == Uncaught(TypeError)
  {
    var request := Request(url, MergeParams(params, settings.accessKey));
    var outcome :=
      match Index(body, "success")
      case NotMapping => Uncaught(TypeError)
      case Missing => Uncaught(KeyError("success"))
      case Found(flag) =>
        if flag == JString(SuccessMarker) then Ok(body)
        else
          // only a KeyError from `body['error']['info']` is caught
          match Index(body, "error")
          case Missing => UnknownClientError
          case NotMapping => Uncaught(TypeError)
          case Found(error) =>
            match Index(error, "info")
            case Found(info) => ClientError(info)
            case Missing => UnknownClientError
            case NotMapping => Uncaught(TypeError);
    Call(request, outcome)
  }

  /** The parameters `get_rate` passes to `_get`. */
  function RateParams(base: string, target: string): map<string, string> {
    map["source" := base, "currencies" := target]
  }

  /** `get_rate`: ask the `live` endpoint for one pair and return its quote. */
  function GetRate(settings: Settings, base: string, target: string, body: Json): (r: Call<Json>)
    ensures r.request == Request(Joined(settings.url, "live"),
                                 map["source" := base, "currencies" := target, AccessKeyParam := settings.accessKey])
    ensures r.outcome.Ok? <==>
      SuccessFlagSet(body) && "quotes" in body.fields
      && body.fields["quotes"].JObject? && base + target in body.fields["quotes"].fields
    ensures r.outcome.Ok? ==> r.outcome.value == body.fields["quotes"].fields[base + target]
    ensures SuccessFlagSet(body) && "quotes" !in body.fields ==> r.outcome.UnknownClientError?
    ensures (&& SuccessFlagSet(body) && "quotes" in body.fields && body.fields["quotes"].JObject?
             && base + target !in body.fields["quotes"].fields)
            ==> r.outcome.UnknownClientError?
    ensures (SuccessFlagSet(body) && "quotes" in body.fields && !body.fields["quotes"].JObject?)
            ==> r.outcome == Uncaught(TypeError)
    ensures !SuccessFlagSet(body) ==> r.outcome == Get(settings, r.request.url, Some(RateParams(base, target)), body).outcome
  {
    var call := Get(settings, Joined(settings.url, "live"), Some(RateParams(base, target)), body);
    var outcome :=
      match call.outcome
      case Ok(data) =>
        (match Index(data, "quotes")
         case Missing => UnknownClientError
         case NotMapping => Uncaught(TypeError)
         case Found(quotes) =>
           match Index(quotes, base + target)
           case Found(rate) => Ok(rate)
           case Missing => UnknownClientError
           case NotMapping => Uncaught(TypeError))
      case ClientError(m) => ClientError(m)
      case UnknownClientError => UnknownClientError
      case Uncaught(e) => Uncaught(e);
    Call(call.request, outcome)
  }

  /** With no caller parameters, or an empty mapping, the access key is the
      only parameter sent. */
  lemma OnlyAccessKeyWithoutParams(params: Option<map<string, string>>, accessKey: string)
    requires params == None || params == Some(map[])
    ensures MergeParams(params, accessKey) == map[AccessKeyParam := accessKey]
  {
  }

  /** The request carries exactly the caller's parameter names plus
      `access_key`; every caller value is kept except that a caller's own
      `access_key` is overridden by the configured key. */
  lemma CallerParamsKept(params: map<string, string>, accessKey: string)
    ensures var merged := MergeParams(Some(params), accessKey);
            && merged.Keys == params.Keys + {AccessKeyParam}
            && merged[AccessKeyParam] == accessKey
            && (forall p :: p in params && p != AccessKeyParam ==> merged[p] == params[p])
  {
  }

  /** A body whose `success` is the JSON literal `true` is not passed
      through: it is a bool, not the string "true", and without an `error`
      field it is reported as an unknown client error. */
  lemma BooleanTrueIsNotSuccess(settings: Settings, url: Url, quotes: Json)
    ensures Get(settings, url, None, JObject(map["success" := JBool(true), "quotes" := quotes])).outcome
            == UnknownClientError
  {
  }

  /** A failure report whose `error` is a string escapes as a `TypeError`
      instead of being classified, and a body without `success` escapes as a
      `KeyError`. */
  lemma UnclassifiedBodies(settings: Settings, url: Url)
    ensures Get(settings, url, None, JObject(map["success" := JBool(false), "error" := JString("wrong_value_structure")])).outcome
            == Uncaught(TypeError)
    ensures Get(settings, url, None, JObject(map["wrong_key" := JString("wrong_value")])).outcome
            == Uncaught(KeyError("success"))
  {
  }
}
