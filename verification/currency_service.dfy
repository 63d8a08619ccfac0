/** The currency service: it fetches the list of available currencies,
    mirrors it into the shared Redis hash `available_currencies` and
    memoises it per service instance, and it shapes one client quote into a
    rate record. Client errors are re-raised as the service's own
    `ExchangerateClientError` carrying the client's message.

    The client's `get_available_currencies` is not defined in the client
    module, so its result is an input here (an oracle). */
module CurrencyService {
  import opened PyRuntime
  import opened JsonModel
  import Client = ExchangerateClient

  /** The Redis hash that mirrors the available currencies. */
  const AvailableKey: string := "available_currencies"

  /** The state the service reads and writes: the per-instance memo and the
      Redis hashes, each a map from field to value. */
  datatype State = State(memo: Option<map<string, string>>, cache: map<string, map<string, string>>)

  /** How a service call ends. */
  datatype ServiceOutcome<+T> =
    | Done(value: T)
    | ExchangerateClientError(message: Json)
    | Uncaught(exception: PyException)

  /** `RateOutput`: the pair key, the rate as the client returned it, and
      the human-readable description. */
  datatype RateOutput = RateOutput(pair: string, rate: Json, description: string)

  /** One `get_rate` call: the request the client sent and how it ended. */
  datatype RateCall = RateCall(request: Client.Request, outcome: ServiceOutcome<RateOutput>)

  /** The fields of a Redis hash; a missing key reads as an empty hash. */
  function Hash(cache: map<string, map<string, string>>, key: string): map<string, string> {
    if key in cache then cache[key] else map[]
  }

  /** The memo, when present, agrees with the Redis hash on every code it holds. */
  predicate MemoMirrored(s: State) {
    s.memo.Some? ==>
      forall code :: code in s.memo.value ==>
        code in Hash(s.cache, AvailableKey) && Hash(s.cache, AvailableKey)[code] == s.memo.value[code]
  }

  /** The service-side translation of a client outcome that is not a success. */
  function Translate<T, U>(failure: Client.ClientOutcome<T>): (r: ServiceOutcome<U>)
    requires !failure.Ok?
    ensures failure.IsClientError() <==> r.ExchangerateClientError?
    ensures failure.IsClientError() ==> r.message == failure.Message()
    ensures failure.Uncaught? ==> r == Uncaught(failure.exception)
  {
    match failure
    case ClientError(m) => ExchangerateClientError(m)
    case UnknownClientError => ExchangerateClientError(JString(Client.UnknownMessage))
    case Uncaught(e) => Uncaught(e)
  }

  /** `__init__`: a fresh service over the given Redis contents, with no memo. */
  function New(cache: map<string, map<string, string>>): (s: State)
    ensures s.memo.None? && s.cache == cache
    ensures MemoMirrored(s)
  {
    State(None, cache)
  }

  /** `retrieve_available_currencies`, given what the client's
      `get_available_currencies` answered. On success the fetched codes are
      merged into the Redis hash (HSET leaves other fields alone), the memo
      becomes the fetched map, and the map is returned. On any failure
      neither the hash nor the memo changes. */
  function RetrieveAvailableCurrencies(s: State, fetched: Client.ClientOutcome<map<string, string>>)
    : (r: (ServiceOutcome<map<string, string>>, State))
    ensures r.0.Done? <==> fetched.Ok? && |fetched.value| > 0
    ensures r.0.Done? ==> r.0.value == fetched.value && r.1.memo == Some(fetched.value)
    ensures r.0.Done? ==>
      forall code :: code in fetched.value ==>
        code in Hash(r.1.cache, AvailableKey) && Hash(r.1.cache, AvailableKey)[code] == fetched.value[code]
    ensures r.0.Done? ==>
      forall code :: code in Hash(s.cache, AvailableKey) && code !in fetched.value ==>
        code in Hash(r.1.cache, AvailableKey) && Hash(r.1.cache, AvailableKey)[code] == Hash(s.cache, AvailableKey)[code]
    ensures r.0.Done? ==>
      Hash(r.1.cache, AvailableKey).Keys == Hash(s.cache, AvailableKey).Keys + fetched.value.Keys
    ensures forall key :: key != AvailableKey ==> Hash(r.1.cache, key) == Hash(s.cache, key)
    ensures !r.0.Done? ==> r.1 == s
    ensures fetched.IsClientError() ==> r.0 == ExchangerateClientError(fetched.Message())
    ensures fetched.Uncaught? ==> r.0 == Uncaught(fetched.exception)
    ensures fetched.Ok? && |fetched.value| == 0 ==> r.0 == Uncaught(RedisDataError)
  {
    match fetched
    case Ok(currencies) =>
      if |currencies| == 0 then
        // the Redis client refuses an HSET without field/value pairs
        (Uncaught(RedisDataError), s)
      else
        var hash := Hash(s.cache, AvailableKey) + currencies;
        (Done(currencies), State(Some(currencies), s.cache[AvailableKey := hash]))
    case _ => (Translate<map<string, string>, map<string, string>>(fetched), s)
  }

  /** The memo never disagrees with the Redis hash across a retrieval. */
  lemma RetrievePreservesMirror(s: State, fetched: Client.ClientOutcome<map<string, string>>)
    requires MemoMirrored(s)
    ensures MemoMirrored(RetrieveAvailableCurrencies(s, fetched).1)
  {
  }

  /** Retrieving the same map twice leaves the same state as retrieving it once. */
  lemma RetrieveIdempotent(s: State, fetched: Client.ClientOutcome<map<string, string>>)
    ensures var s1 := RetrieveAvailableCurrencies(s, fetched).1;
            RetrieveAvailableCurrencies(s1, fetched).1 == s1
  {
    if fetched.Ok? && |fetched.value| > 0 {
      var f := fetched.value;
      var h1 := Hash(s.cache, AvailableKey) + f;
      var c1 := s.cache[AvailableKey := h1];
      assert Hash(c1, AvailableKey) == h1;
      assert h1 + f == h1 by {
        assert (h1 + f).Keys == h1.Keys;
      }
      assert c1[AvailableKey := h1] == c1;
    }
  }

  /** The description of a rate: "1 <base> = <rate> <target>". How Python
      renders the float is the `show` parameter. */
  function Describe(base: string, target: string, shown: string): (d: string)
    ensures |d| == |base| + |shown| + |target| + 6
    ensures d[..2 + |base|] == "1 " + base
    ensures d[2 + |base|..5 + |base|] == " = "
    ensures d[5 + |base|..5 + |base| + |shown|] == shown
    ensures d[|d| - |target| - 1..] == " " + target
  {
    "1 " + base + " = " + shown + " " + target
  }

  /** A quote that the `rate: float` field of `RateOutput` refuses under any
      schema configuration: null, a list or an object. */
  predicate NotAFloat(v: Json) {
    v.JNull? || v.JArray? || v.JObject?
  }

  /** `get_rate`: one client call for the same base and target; a client
      error becomes `ExchangerateClientError` with the client's message, an
      uncaught client exception propagates unchanged, a quote that is no
      float at all fails validation of `RateOutput`, and any other quote
      becomes a `RateOutput`. The service state is not a parameter: this
      operation reads and writes neither the memo nor the Redis hash. */
  function GetRate(settings: Client.Settings, base: string, target: string, body: Json, show: Json -> string)
    : (r: RateCall)
    ensures r.request == Client.GetRate(settings, base, target, body).request
    ensures r.outcome.Done? <==>
      && Client.GetRate(settings, base, target, body).outcome.Ok?
      && !NotAFloat(Client.GetRate(settings, base, target, body).outcome.value)
    ensures Client.GetRate(settings, base, target, body).outcome.Ok?
            && NotAFloat(Client.GetRate(settings, base, target, body).outcome.value)
            ==> r.outcome == Uncaught(ValidationError)
    ensures Client.GetRate(settings, base, target, body).outcome.Uncaught? ==>
      r.outcome == Uncaught(Client.GetRate(settings, base, target, body).outcome.exception)
    ensures r.outcome.Done? ==>
      var rate := Client.GetRate(settings, base, target, body).outcome.value;
      && r.outcome.value.rate == rate
      && r.outcome.value.pair == base + target
      && r.outcome.value.description == Describe(base, target, show(rate))
    ensures Client.GetRate(settings, base, target, body).outcome.IsClientError() ==>
      r.outcome == ExchangerateClientError(Client.GetRate(settings, base, target, body).outcome.Message())
  {
    var call := Client.GetRate(settings, base, target, body);
    var outcome :=
      match call.outcome
      case Ok(rate) =>
        if NotAFloat(rate) then Uncaught(ValidationError)
        else Done(RateOutput(base + target, rate, Describe(base, target, show(rate))))
      case _ => Translate<Json, RateOutput>(call.outcome);
    RateCall(call.request, outcome)
  }

  /** A reply without the requested quote surfaces as the fixed message
      "Unknown error", and the request carried the pair and the access key. */
  lemma MissingQuoteIsUnknownError(settings: Client.Settings, base: string, target: string, show: Json -> string)
    ensures var body := JObject(map["success" := JString("true"), "quotes" := JObject(map[])]);
            var r := GetRate(settings, base, target, body, show);
            && r.outcome == ExchangerateClientError(JString("Unknown error"))
            && r.request.params["source"] == base
            && r.request.params["currencies"] == target
            && r.request.params["access_key"] == settings.accessKey
  {
  }

  /** A quote of JSON null passes the client but is refused by `RateOutput`,
      while a numeric quote is shaped into a rate record. */
  lemma QuoteMustBeAFloat(settings: Client.Settings, show: Json -> string)
    ensures var body := JObject(map["success" := JString("true"), "quotes" := JObject(map["USDEUR" := JNull])]);
            GetRate(settings, "USD", "EUR", body, show).outcome == Uncaught(ValidationError)
    ensures var body := JObject(map["success" := JString("true"), "quotes" := JObject(map["USDEUR" := JNumber(92, -2)])]);
            GetRate(settings, "USD", "EUR", body, show).outcome.Done?
  {
    assert "USD" + "EUR" == "USDEUR";
    var nullBody := JObject(map["success" := JString("true"), "quotes" := JObject(map["USDEUR" := JNull])]);
    assert Client.GetRate(settings, "USD", "EUR", nullBody).outcome == Client.Ok(JNull);
    var numberBody := JObject(map["success" := JString("true"), "quotes" := JObject(map["USDEUR" := JNumber(92, -2)])]);
    assert Client.GetRate(settings, "USD", "EUR", numberBody).outcome == Client.Ok(JNumber(92, -2));
  }
}
