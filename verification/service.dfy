/** The weather service: start-up, the throwing lookup, and the rate-limited top-level call. */
module Service {
  import opened Outcomes
  import opened Remote
  import opened Endpoints
  import opened Codes
  import opened Retry
  import RateLimiter

  const MaxTps := 100

  const ProvinceMissing := "province not exist:"
  const CityMissing := "city not exist:"
  const ProvinceListFailed := "cannot get province mapping data"
  const CityListFailed := "cannot get city mapping data"

  /** The eager maps: province name to code, and province code to its city name-to-code map. */
  datatype Index = Index(provinceMap: CodeMap, provinceToCityMap: map<string, CodeMap>)

  datatype Service = Service(limiter: RateLimiter.Limiter, index: Index, cityToCountyMap: CountyCache)

  /**
    A service as constructed, before start-up: a one-second limiter of `tps`
    permits and empty maps, so every lookup fails on its province.
  */
  function NewService(tps: int): (s: Service)
    ensures s.limiter == RateLimiter.New(tps, 1) && s.limiter.Capacity() == tps
    ensures s.cityToCountyMap == map[]
    ensures forall province, city :: Resolve(s.index, province, city) == Err(Fail(ProvinceMissing + province))
  {
    Service(RateLimiter.New(tps, 1), Index(map[], map[]), map[])
  }

  /** The no-argument constructor: one hundred permits a second. */
  function NewDefaultService(): (s: Service)
    ensures s.limiter.qps == 100 && s.limiter.window == 1 && s.limiter.Capacity() == 100
    ensures s.limiter.accumulated == 0 && s.cityToCountyMap == map[]
  {
    NewService(MaxTps)
  }

  // ---------------------------------------------------------------------------
  // Start-up

  /** Outcome of a start-up step and the requests it made, in order. */
  datatype Loaded<+T> = Loaded(result: Result<T>, requests: seq<Request>)

  /** Fetch the province listing and invert it. */
  function SetProvinceMap(net: Network): (r: Loaded<CodeMap>)
    ensures r.requests == [ProvinceList]
    ensures r.result.Ok? <==> net.listing(ProvinceList).Listed?
    ensures r.result.Ok? ==> r.result.value == Invert(net.listing(ProvinceList).entries)
    ensures r.result.Err? ==> r.result.error == Error(ProvinceListFailed, Some(net.listing(ProvinceList).cause))
  {
    match net.listing(ProvinceList)
    case Unavailable(cause) => Loaded(Err(Error(ProvinceListFailed, Some(cause))), [ProvinceList])
    case Listed(entries) => Loaded(Ok(Invert(entries)), [ProvinceList])
  }

  /** `order` lists each element of `codes` exactly once. */
  predicate Enumerates(order: seq<string>, codes: set<string>)
  {
    && (forall c :: c in order ==> c in codes)
    && (forall c :: c in codes ==> c in order)
    && forall i, j :: 0 <= i < j < |order| ==> order[i] != order[j]
  }

  /** Every finite set has an enumeration. */
  lemma {:induction false} EnumerationExists(codes: set<string>)
    ensures exists order :: Enumerates(order, codes)
    decreases |codes|
  {
    if codes == {} {
      assert Enumerates([], codes);
    } else {
      var c :| c in codes;
      EnumerationExists(codes - {c});
      var order :| Enumerates(order, codes - {c});
      assert Enumerates([c] + order, codes) by {
        forall i, j | 0 <= i < j < |[c] + order| ensures ([c] + order)[i] != ([c] + order)[j] {
          if i > 0 {
            assert ([c] + order)[i] == order[i - 1];
          }
          assert ([c] + order)[j] == order[j - 1];
        }
      }
    }
  }

  /**
    Fetch and invert the city listing of each province code, in the order
    given; the first failure aborts.
  */
  function SetCityMap(net: Network, order: seq<string>): (r: Loaded<map<string, CodeMap>>)
    ensures |r.requests| <= |order|
    ensures r.result.Ok? ==> |r.requests| == |order| && r.result.value.Keys == set c | c in order
    decreases |order|
  {
    if |order| == 0 then Loaded(Ok(map[]), [])
    else
      var request := CityList(order[0]);
      match net.listing(request)
      case Unavailable(cause) => Loaded(Err(Error(CityListFailed, Some(cause))), [request])
      case Listed(entries) =>
        var rest := SetCityMap(net, order[1..]);
        assert (set c | c in order) == {order[0]} + set c | c in order[1..];
        match rest.result
        case Err(e) => Loaded(Err(e), [request] + rest.requests)
        case Ok(cities) => Loaded(Ok(cities[order[0] := Invert(entries)]), [request] + rest.requests)
  }

  /** The j-th request is for the j-th code's city listing. */
  lemma {:induction false} CityRequestsInOrder(net: Network, order: seq<string>)
    ensures var r := SetCityMap(net, order);
      forall j :: 0 <= j < |r.requests| ==> r.requests[j] == CityList(order[j])
    decreases |order|
  {
    if |order| > 0 {
      CityRequestsInOrder(net, order[1..]);
      var r := SetCityMap(net, order);
      var rest := SetCityMap(net, order[1..]);
      forall j | 1 <= j < |r.requests| ensures r.requests[j] == CityList(order[j]) {
        assert r.requests[j] == rest.requests[j - 1];
        assert order[1..][j - 1] == order[j];
      }
    }
  }

  /** The city maps are built iff every listing arrives. */
  lemma {:induction false} CityMapsBuiltIff(net: Network, order: seq<string>)
    ensures SetCityMap(net, order).result.Ok? <==> forall j :: 0 <= j < |order| ==> net.listing(CityList(order[j])).Listed?
    decreases |order|
  {
    if |order| > 0 {
      CityMapsBuiltIff(net, order[1..]);
      assert forall j :: 1 <= j < |order| ==> order[1..][j - 1] == order[j];
    }
  }

  /** A failure is that of the last listing requested, every earlier one having arrived. */
  lemma {:induction false} CityMapFailure(net: Network, order: seq<string>)
    requires SetCityMap(net, order).result.Err?
    ensures var r := SetCityMap(net, order);
      var k := |r.requests| - 1;
      && 0 <= k < |order|
      && (forall j :: 0 <= j < k ==> net.listing(CityList(order[j])).Listed?)
      && net.listing(CityList(order[k])).Unavailable?
      && r.result.error == Error(CityListFailed, Some(net.listing(CityList(order[k])).cause))
    decreases |order|
  {
    if net.listing(CityList(order[0])).Listed? {
      CityMapFailure(net, order[1..]);
      assert forall j :: 1 <= j < |order| ==> order[1..][j - 1] == order[j];
    }
  }

  /** Without repeated codes, each code holds its own inverted city listing. */
  lemma {:induction false} CityMapsContents(net: Network, order: seq<string>, j: int)
    requires 0 <= j < |order| && SetCityMap(net, order).result.Ok?
    requires forall i :: j < i < |order| ==> order[i] != order[j]
    ensures net.listing(CityList(order[j])).Listed?
    ensures SetCityMap(net, order).result.value[order[j]] == Invert(net.listing(CityList(order[j])).entries)
    decreases |order|
  {
    if j > 0 {
      CityMapsContents(net, order[1..], j - 1);
    }
  }

  /** `new WeatherService(tps)` followed by `init()`, visiting the province codes in the given order. */
  function InitInOrder(tps: int, net: Network, order: seq<string>): (r: Loaded<Service>)
    ensures |r.requests| >= 1 && r.requests[0] == ProvinceList
    ensures !net.listing(ProvinceList).Listed? ==> |r.requests| == 1 && r.result.Err?
    ensures r.result.Ok? ==>
      && net.listing(ProvinceList).Listed?
      && |r.requests| == 1 + |order|
      && r.result.value.index.provinceMap == Invert(net.listing(ProvinceList).entries)
      && r.result.value.index.provinceToCityMap.Keys == (set c | c in order)
      && r.result.value.cityToCountyMap == map[]
      && r.result.value.limiter == RateLimiter.New(tps, 1)
  {
    var provinces := SetProvinceMap(net);
    match provinces.result
    case Err(e) => Loaded(Err(e), provinces.requests)
    case Ok(provinceMap) =>
      var cities := SetCityMap(net, order);
      var requests := provinces.requests + cities.requests;
      match cities.result
      case Err(e) => Loaded(Err(e), requests)
      case Ok(cityMaps) => Loaded(Ok(NewService(tps).(index := Index(provinceMap, cityMaps))), requests)
  }

  /** The province codes of a province listing, in the fixed but unspecified order its hash map yields them. */
  ghost function ValuesOrder(provinceMap: CodeMap): (order: seq<string>)
    ensures Enumerates(order, provinceMap.Values)
  {
    EnumerationExists(provinceMap.Values);
    var order :| Enumerates(order, provinceMap.Values);
    order
  }

  /** Start-up: the province codes visited in their hash map's order. */
  ghost function Init(tps: int, net: Network): (r: Loaded<Service>)
    ensures |r.requests| >= 1 && r.requests[0] == ProvinceList
    ensures r.result.Ok? ==>
      && net.listing(ProvinceList).Listed?
      && r.result.value.index.provinceMap == Invert(net.listing(ProvinceList).entries)
      && r.result.value.index.provinceToCityMap.Keys == r.result.value.index.provinceMap.Values
  {
    var order := if net.listing(ProvinceList).Listed? then ValuesOrder(Invert(net.listing(ProvinceList).entries)) else [];
    InitInOrder(tps, net, order)
  }

  /** A failed province listing stops start-up before any city request. */
  lemma InitProvinceFailure(tps: int, net: Network)
    requires net.listing(ProvinceList).Unavailable?
    ensures Init(tps, net) == Loaded(Err(Error(ProvinceListFailed, Some(net.listing(ProvinceList).cause))), [ProvinceList])
  {
  }

  /** Start-up succeeds iff the province listing and every province code's city listing arrive. */
  lemma InitSucceedsIff(tps: int, net: Network)
    ensures Init(tps, net).result.Ok? <==>
      && net.listing(ProvinceList).Listed?
      && forall c :: c in Invert(net.listing(ProvinceList).entries).Values ==> net.listing(CityList(c)).Listed?
    ensures Init(tps, net).result.Err? && net.listing(ProvinceList).Listed? ==>
      Init(tps, net).result.error.message == CityListFailed
  {
    if net.listing(ProvinceList).Listed? {
      var provinceMap := Invert(net.listing(ProvinceList).entries);
      var order := ValuesOrder(provinceMap);
      CityMapsBuiltIff(net, order);
      if !SetCityMap(net, order).result.Ok? {
        CityMapFailure(net, order);
      } else {
        forall c | c in provinceMap.Values ensures net.listing(CityList(c)).Listed? {
          var j :| 0 <= j < |order| && order[j] == c;
        }
      }
    }
  }

  /**
    A started service holds the inverted province listing, one inverted city
    listing per province code, an empty county cache and a fresh limiter;
    start-up made the province request first and then one request per
    province code.
  */
  lemma InitContents(tps: int, net: Network)
    requires Init(tps, net).result.Ok?
    ensures var r := Init(tps, net);
      var s := r.result.value;
      && net.listing(ProvinceList).Listed?
      && s.index.provinceMap == Invert(net.listing(ProvinceList).entries)
      && s.index.provinceToCityMap.Keys == s.index.provinceMap.Values
      && (forall c :: c in s.index.provinceToCityMap ==>
            net.listing(CityList(c)).Listed? && s.index.provinceToCityMap[c] == Invert(net.listing(CityList(c)).entries))
      && s.cityToCountyMap == map[]
      && s.limiter == RateLimiter.New(tps, 1)
      && r.requests[0] == ProvinceList
      && |r.requests| == 1 + |s.index.provinceMap.Values|
      && forall c :: c in s.index.provinceMap.Values ==> CityList(c) in r.requests
  {
    var r := Init(tps, net);
    var provinceMap := Invert(net.listing(ProvinceList).entries);
    var order := ValuesOrder(provinceMap);
    var cities := SetCityMap(net, order);
    assert r.requests == [ProvinceList] + cities.requests;
    CityRequestsInOrder(net, order);
    forall c | c in provinceMap.Values
      ensures CityList(c) in r.requests
      ensures net.listing(CityList(c)).Listed? && cities.result.value[c] == Invert(net.listing(CityList(c)).entries)
    {
      var j :| 0 <= j < |order| && order[j] == c;
      assert r.requests[j + 1] == CityList(c);
      CityMapsContents(net, order, j);
    }
    DistinctCardinality(order, provinceMap.Values);
  }

  /** An enumeration is as long as the set it enumerates. */
  lemma {:induction false} DistinctCardinality(order: seq<string>, codes: set<string>)
    requires Enumerates(order, codes)
    ensures |order| == |codes|
    decreases |order|
  {
    if |order| > 0 {
      var rest := order[1..];
      assert Enumerates(rest, codes - {order[0]}) by {
        forall c ensures c in rest <==> c in codes - {order[0]} {
          if c in rest {
            var i :| 0 <= i < |rest| && rest[i] == c;
            assert order[i + 1] == c;
          }
          if c in codes - {order[0]} {
            var i :| 0 <= i < |order| && order[i] == c;
            assert i != 0;
            assert rest[i - 1] == c;
          }
        }
        forall i, j | 0 <= i < j < |rest| ensures rest[i] != rest[j] {
          assert rest[i] == order[i + 1] && rest[j] == order[j + 1];
        }
      }
      DistinctCardinality(rest, codes - {order[0]});
    } else {
      assert codes == {} by {
        forall c | c in codes ensures false {
        }
      }
    }
  }

  // ---------------------------------------------------------------------------
  // Lookup

  /** The eager lookups: province code, then city code under it. */
  function Resolve(index: Index, province: string, city: string): (r: Result<(string, string)>)
    ensures r.Ok? <==>
      && province in index.provinceMap
      && index.provinceMap[province] in index.provinceToCityMap
      && city in index.provinceToCityMap[index.provinceMap[province]]
    ensures r.Ok? ==>
      var provinceCode := index.provinceMap[province];
      r.value == (provinceCode, index.provinceToCityMap[provinceCode][city])
    ensures province !in index.provinceMap || index.provinceMap[province] !in index.provinceToCityMap ==>
      r == Err(Fail(ProvinceMissing + province))
    ensures r.Err? && province in index.provinceMap && index.provinceMap[province] in index.provinceToCityMap ==>
      r == Err(Fail(CityMissing + city))
  {
    if province !in index.provinceMap then Err(Fail(ProvinceMissing + province))
    else
      var provinceCode := index.provinceMap[province];
      if provinceCode !in index.provinceToCityMap then Err(Fail(ProvinceMissing + province))
      else
        var cityMap := index.provinceToCityMap[provinceCode];
        if city !in cityMap then Err(Fail(CityMissing + city))
        else Ok((provinceCode, cityMap[city]))
  }

  /** A lookup's outcome, the county cache after it, and the requests it made in order. */
  datatype Lookup = Lookup(result: Result<int>, cache: CountyCache, requests: seq<Request>)

  /** `getT`: resolve the three names, then fetch the weather with retries. */
  function GetT(index: Index, cache: CountyCache, net: Network, province: string, city: string, county: string): (r: Lookup)
    // unknown province or city: fails before any request, cache untouched
    ensures Resolve(index, province, city).Err? ==>
      r == Lookup(Err(Resolve(index, province, city).error), cache, [])
    // known: the county lookup comes first, then (only if it succeeds) the weather fetch
    ensures Resolve(index, province, city).Ok? ==>
      var (provinceCode, cityCode) := Resolve(index, province, city).value;
      var found := GetCountyCode(cache, net, provinceCode, cityCode, county);
      && r.cache == found.cache
      && (found.result.Err? ==> r.result == Err(found.result.error) && r.requests == found.requests)
      && (found.result.Ok? ==>
            var fetched := FetchWeather(net, WeatherNow(provinceCode, cityCode, found.result.value));
            r.result == fetched.result && r.requests == found.requests + fetched.requests)
    // at most one listing request and three weather requests
    ensures |r.requests| <= 1 + MaxRetryTime
  {
    match Resolve(index, province, city)
    case Err(e) => Lookup(Err(e), cache, [])
    case Ok((provinceCode, cityCode)) =>
      var found := GetCountyCode(cache, net, provinceCode, cityCode, county);
      match found.result
      case Err(e) => Lookup(Err(e), found.cache, found.requests)
      case Ok(countyCode) =>
        var fetched := FetchWeather(net, WeatherNow(provinceCode, cityCode, countyCode));
        Lookup(fetched.result, found.cache, found.requests + fetched.requests)
  }

  /** The outcome of `getTemperature`: the service after the call, the temperature if any, the requests made. */
  datatype Answer = Answer(service: Service, temperature: Option<int>, requests: seq<Request>)

  /** `getTemperature` at time `now`: ask the limiter, then look up; every failure becomes an empty answer. */
  function GetTemperature(s: Service, now: int, net: Network, province: string, city: string, county: string): (r: Answer)
    ensures r.service.limiter == RateLimiter.Acquire(s.limiter, now).next
    ensures r.service.index == s.index
    ensures !RateLimiter.Acquire(s.limiter, now).granted ==>
      r.temperature == None && r.requests == [] && r.service.cityToCountyMap == s.cityToCountyMap
    ensures RateLimiter.Acquire(s.limiter, now).granted ==>
      var found := GetT(s.index, s.cityToCountyMap, net, province, city, county);
      r.service.cityToCountyMap == found.cache && r.requests == found.requests
    ensures forall t :: r.temperature == Some(t) <==>
      RateLimiter.Acquire(s.limiter, now).granted
      && GetT(s.index, s.cityToCountyMap, net, province, city, county).result == Ok(t)
  {
    var permit := RateLimiter.Acquire(s.limiter, now);
    var limited := s.(limiter := permit.next);
    if !permit.granted then Answer(limited, None, [])
    else
      var found := GetT(s.index, s.cityToCountyMap, net, province, city, county);
      var temperature := if found.result.Ok? then Some(found.result.value) else None;
      Answer(limited.(cityToCountyMap := found.cache), temperature, found.requests)
  }

  /** A limiter that is spent and not yet due for a refill turns every call away, however the lookup would have gone. */
  lemma SpentLimiterAnswersNothing(s: Service, now: int, net: Network, province: string, city: string, county: string)
    requires s.limiter.accumulated <= 0 && !RateLimiter.RefillDue(s.limiter, now)
    ensures GetTemperature(s, now, net, province, city, county) ==
      Answer(s.(limiter := s.limiter.(accumulated := s.limiter.accumulated - 1)), None, [])
  {
  }

  // ---------------------------------------------------------------------------
  // Sessions: one caller's calls for one place, one after another

  /** One call of a session: its time, and the provider's answers while it runs. */
  datatype Call = Call(now: int, net: Network)

  function Times(calls: seq<Call>): (times: seq<int>)
    ensures |times| == |calls| && forall i :: 0 <= i < |calls| ==> times[i] == calls[i].now
    decreases |calls|
  {
    if |calls| == 0 then [] else [calls[0].now] + Times(calls[1..])
  }

  /** The answers, the county cache each call started from, and the service after the last call. */
  datatype Session = Session(answers: seq<Option<int>>, caches: seq<CountyCache>, final: Service)

  function Serve(s: Service, calls: seq<Call>, province: string, city: string, county: string): (r: Session)
    ensures |r.answers| == |calls| && |r.caches| == |calls|
    decreases |calls|
  {
    if |calls| == 0 then Session([], [], s)
    else
      var a := GetTemperature(s, calls[0].now, calls[0].net, province, city, county);
      var rest := Serve(a.service, calls[1..], province, city, county);
      Session([a.temperature] + rest.answers, [s.cityToCountyMap] + rest.caches, rest.final)
  }

  /** Number of calls that returned a temperature. */
  function Answered(answers: seq<Option<int>>): (n: nat)
    ensures n <= |answers|
    decreases |answers|
  {
    if |answers| == 0 then 0 else (if answers[0].Some? then 1 else 0) + Answered(answers[1..])
  }

  /** The county cache after a call: the lookup's cache when the permit is granted, else unchanged. */
  function CacheAfter(index: Index, cache: CountyCache, granted: bool, call: Call, province: string, city: string, county: string): CountyCache
  {
    if granted then GetT(index, cache, call.net, province, city, county).cache else cache
  }

  /** A non-empty session is its first call followed by the session of the rest. */
  lemma ServeUnfold(s: Service, calls: seq<Call>, province: string, city: string, county: string)
    requires |calls| > 0
    ensures var a := GetTemperature(s, calls[0].now, calls[0].net, province, city, county);
      var rest := Serve(a.service, calls[1..], province, city, county);
      var r := Serve(s, calls, province, city, county);
      && r.answers == [a.temperature] + rest.answers
      && r.caches == [s.cityToCountyMap] + rest.caches
      && r.final == rest.final
      && RateLimiter.Run(s.limiter, Times(calls)).permits
           == [RateLimiter.Acquire(s.limiter, calls[0].now)] + RateLimiter.Run(a.service.limiter, Times(calls[1..])).permits
      && RateLimiter.Run(s.limiter, Times(calls)).final == RateLimiter.Run(a.service.limiter, Times(calls[1..])).final
  {
    assert Times(calls)[1..] == Times(calls[1..]);
  }

  /** One call: the limiter takes one step, and the call answers iff granted and its lookup succeeds. */
  lemma CallStep(s: Service, call: Call, province: string, city: string, county: string)
    ensures var a := GetTemperature(s, call.now, call.net, province, city, county);
      var permit := RateLimiter.Acquire(s.limiter, call.now);
      var found := GetT(s.index, s.cityToCountyMap, call.net, province, city, county);
      && a.service.limiter == permit.next
      && a.service.index == s.index
      && (permit.granted ==> a.service.cityToCountyMap == found.cache)
      && (a.temperature.Some? <==> permit.granted && found.result.Ok?)
      && (a.temperature.Some? ==> found.result == Ok(a.temperature.value))
  {
    var a := GetTemperature(s, call.now, call.net, province, city, county);
    if a.temperature.Some? {
      assert a.temperature == Some(a.temperature.value);
    }
  }

  /**
    A call that started from `cache` answers iff its permit was granted and
    its own lookup succeeds, and then with the lookup's temperature.
  */
  predicate AnswersAsLookup(index: Index, cache: CountyCache, call: Call, granted: bool, answer: Option<int>, province: string, city: string, county: string)
  {
    var found := GetT(index, cache, call.net, province, city, county);
    && (answer.Some? <==> granted && found.result.Ok?)
    && (answer.Some? ==> found.result == Ok(answer.value))
  }

  /** A session's limiter and index evolve exactly as the limiter run alone. */
  lemma {:induction false} ServeFollowsLimiter(s: Service, calls: seq<Call>, province: string, city: string, county: string)
    ensures var r := Serve(s, calls, province, city, county);
      r.final.limiter == RateLimiter.Run(s.limiter, Times(calls)).final && r.final.index == s.index
    decreases |calls|
  {
    if |calls| > 0 {
      var a := GetTemperature(s, calls[0].now, calls[0].net, province, city, county);
      CallStep(s, calls[0], province, city, county);
      ServeFollowsLimiter(a.service, calls[1..], province, city, county);
      ServeUnfold(s, calls, province, city, county);
    }
  }

  /**
    Each call of a session answers iff its permit is granted and its own
    lookup, against the provider's answers during that call and from the
    cache it started from, succeeds.
  */
  lemma {:induction false} SessionAnswers(s: Service, calls: seq<Call>, province: string, city: string, county: string)
    ensures var r := Serve(s, calls, province, city, county);
      var run := RateLimiter.Run(s.limiter, Times(calls));
      forall i :: 0 <= i < |calls| ==>
        AnswersAsLookup(s.index, r.caches[i], calls[i], run.permits[i].granted, r.answers[i], province, city, county)
    decreases |calls|
  {
    if |calls| > 0 {
      var a := GetTemperature(s, calls[0].now, calls[0].net, province, city, county);
      CallStep(s, calls[0], province, city, county);
      SessionAnswers(a.service, calls[1..], province, city, county);
      ServeUnfold(s, calls, province, city, county);
      var r := Serve(s, calls, province, city, county);
      var rest := Serve(a.service, calls[1..], province, city, county);
      var run := RateLimiter.Run(s.limiter, Times(calls));
      var restRun := RateLimiter.Run(a.service.limiter, Times(calls[1..]));
      forall i | 0 <= i < |calls|
        ensures AnswersAsLookup(s.index, r.caches[i], calls[i], run.permits[i].granted, r.answers[i], province, city, county)
      {
        if i > 0 {
          assert r.answers[i] == rest.answers[i - 1] && r.caches[i] == rest.caches[i - 1];
          assert run.permits[i] == restRun.permits[i - 1] && calls[i] == calls[1..][i - 1];
        }
      }
    }
  }

  /** Each call starts from the cache its predecessor left: that lookup's cache if granted, the same cache if not. */
  lemma {:induction false} SessionCaches(s: Service, calls: seq<Call>, province: string, city: string, county: string)
    ensures var r := Serve(s, calls, province, city, county);
      var run := RateLimiter.Run(s.limiter, Times(calls));
      && (|calls| == 0 ==> r.final.cityToCountyMap == s.cityToCountyMap)
      && (|calls| > 0 ==> r.caches[0] == s.cityToCountyMap)
      && (forall i :: 0 <= i < |calls| - 1 ==>
            r.caches[i + 1] == CacheAfter(s.index, r.caches[i], run.permits[i].granted, calls[i], province, city, county))
      && (|calls| > 0 ==>
            r.final.cityToCountyMap
              == CacheAfter(s.index, r.caches[|calls| - 1], run.permits[|calls| - 1].granted, calls[|calls| - 1], province, city, county))
    decreases |calls|
  {
    if |calls| > 0 {
      var a := GetTemperature(s, calls[0].now, calls[0].net, province, city, county);
      SessionCaches(a.service, calls[1..], province, city, county);
      ServeUnfold(s, calls, province, city, county);
      var r := Serve(s, calls, province, city, county);
      var rest := Serve(a.service, calls[1..], province, city, county);
      var run := RateLimiter.Run(s.limiter, Times(calls));
      var restRun := RateLimiter.Run(a.service.limiter, Times(calls[1..]));
      assert a.service.index == s.index;
      forall i | 1 <= i < |calls|
        ensures r.caches[i] == rest.caches[i - 1]
        ensures run.permits[i] == restRun.permits[i - 1] && calls[i] == calls[1..][i - 1]
      {
      }
    }
  }

  /** The county code of a place is in the cache: lookups no longer depend on the county listing. */
  predicate Settled(index: Index, cache: CountyCache, province: string, city: string, county: string)
  {
    && Resolve(index, province, city).Ok?
    && CountyKey(Resolve(index, province, city).value.0, Resolve(index, province, city).value.1) in cache
    && county in cache[CountyKey(Resolve(index, province, city).value.0, Resolve(index, province, city).value.1)]
  }

  /** The weather request of a settled place. */
  function SettledRequest(index: Index, cache: CountyCache, province: string, city: string, county: string): Request
    requires Settled(index, cache, province, city, county)
  {
    var (provinceCode, cityCode) := Resolve(index, province, city).value;
    WeatherNow(provinceCode, cityCode, cache[CountyKey(provinceCode, cityCode)][county])
  }

  /**
    A successful lookup settles its place, with the county code it found.
    Looking up again, whatever the provider answers then, reads that code
    from the cache, leaves the cache alone, and only fetches the weather.
  */
  lemma RepeatedLookup(index: Index, cache: CountyCache, net: Network, net2: Network, province: string, city: string, county: string)
    requires GetT(index, cache, net, province, city, county).result.Ok?
    ensures var first := GetT(index, cache, net, province, city, county);
      && Settled(index, first.cache, province, city, county)
      && var (provinceCode, cityCode) := Resolve(index, province, city).value;
         var request := SettledRequest(index, first.cache, province, city, county);
         && request == WeatherNow(provinceCode, cityCode, GetCountyCode(cache, net, provinceCode, cityCode, county).result.value)
         && GetT(index, first.cache, net2, province, city, county)
              == Lookup(FetchWeather(net2, request).result, first.cache, FetchWeather(net2, request).requests)
  {
  }

  /** From a settled cache every call keeps the cache and answers iff granted and its own weather fetch succeeds. */
  lemma {:induction false} SettledSession(s: Service, calls: seq<Call>, province: string, city: string, county: string)
    requires Settled(s.index, s.cityToCountyMap, province, city, county)
    ensures var r := Serve(s, calls, province, city, county);
      var run := RateLimiter.Run(s.limiter, Times(calls));
      var request := SettledRequest(s.index, s.cityToCountyMap, province, city, county);
      && r.final.cityToCountyMap == s.cityToCountyMap
      && forall i :: 0 <= i < |calls| ==>
           && r.caches[i] == s.cityToCountyMap
           && (r.answers[i].Some? <==> run.permits[i].granted && FetchWeather(calls[i].net, request).result.Ok?)
    decreases |calls|
  {
    if |calls| > 0 {
      var a := GetTemperature(s, calls[0].now, calls[0].net, province, city, county);
      assert a.service.index == s.index && a.service.cityToCountyMap == s.cityToCountyMap;
      SettledSession(a.service, calls[1..], province, city, county);
      SessionAnswers(s, calls, province, city, county);
      ServeUnfold(s, calls, province, city, county);
      var r := Serve(s, calls, province, city, county);
      var rest := Serve(a.service, calls[1..], province, city, county);
      forall i | 1 <= i < |calls|
        ensures r.caches[i] == rest.caches[i - 1]
      {
      }
    }
  }

  /** Counting answers against grants. */
  lemma {:induction false} AnsweredCountsGrants(answers: seq<Option<int>>, permits: seq<RateLimiter.Permit>)
    requires |answers| == |permits|
    requires forall i :: 0 <= i < |answers| ==> (answers[i].Some? <==> permits[i].granted)
    ensures Answered(answers) == RateLimiter.Granted(permits)
    decreases |answers|
  {
    if |answers| > 0 {
      AnsweredCountsGrants(answers[1..], permits[1..]);
    }
  }

  /**
    After a first call whose lookup succeeds, a later call answers iff its
    permit is granted, provided its own lookup from the cache the first
    call left succeeds.
  */
  lemma {:induction false} AfterFirstLookup(s: Service, cache: CountyCache, first: Network, later: seq<Call>, province: string, city: string, county: string)
    requires GetT(s.index, cache, first, province, city, county).result.Ok?
    requires s.cityToCountyMap == GetT(s.index, cache, first, province, city, county).cache
    requires forall i :: 0 <= i < |later| ==> GetT(s.index, s.cityToCountyMap, later[i].net, province, city, county).result.Ok?
    ensures var r := Serve(s, later, province, city, county);
      var run := RateLimiter.Run(s.limiter, Times(later));
      forall i :: 0 <= i < |later| ==> (r.answers[i].Some? <==> run.permits[i].granted)
  {
    RepeatedLookup(s.index, cache, first, first, province, city, county);
    SettledSession(s, later, province, city, county);
    forall i | 0 <= i < |later|
      ensures FetchWeather(later[i].net, SettledRequest(s.index, s.cityToCountyMap, province, city, county)).result.Ok?
    {
      RepeatedLookup(s.index, cache, first, later[i].net, province, city, county);
    }
  }

  /**
    A session whose first call is granted and whose every call's own lookup
    succeeds (the later ones from the cache the first leaves) answers
    exactly the granted calls.
  */
  lemma AnswersFollowGrants(s: Service, t1: Call, later: seq<Call>, province: string, city: string, county: string)
    requires RateLimiter.Acquire(s.limiter, t1.now).granted
    requires GetT(s.index, s.cityToCountyMap, t1.net, province, city, county).result.Ok?
    requires forall i :: 0 <= i < |later| ==>
      GetT(s.index, GetT(s.index, s.cityToCountyMap, t1.net, province, city, county).cache, later[i].net, province, city, county).result.Ok?
    ensures var r := Serve(s, [t1] + later, province, city, county);
      var run := RateLimiter.Run(s.limiter, Times([t1] + later));
      forall i :: 0 <= i < |later| + 1 ==> (r.answers[i].Some? <==> run.permits[i].granted)
  {
    var all := [t1] + later;
    var a := GetTemperature(s, t1.now, t1.net, province, city, county);
    assert all[0] == t1 && all[1..] == later;
    var r := Serve(s, all, province, city, county);
    var rest := Serve(a.service, later, province, city, county);
    var run := RateLimiter.Run(s.limiter, Times(all));
    var restRun := RateLimiter.Run(a.service.limiter, Times(later));
    ServeUnfold(s, all, province, city, county);
    CallStep(s, t1, province, city, county);
    AfterFirstLookup(a.service, s.cityToCountyMap, t1.net, later, province, city, county);
    forall i | 0 <= i < |all| ensures r.answers[i].Some? <==> run.permits[i].granted {
      if i > 0 {
        assert r.answers[i] == rest.answers[i - 1] && run.permits[i] == restRun.permits[i - 1];
      }
    }
  }

  /**
    The service-level rate-limit test: a 20-permit service, a refill due,
    then thirty calls within one second for one place, each of whose own
    lookups succeeds: the first from the starting cache, every later one
    from the cache the first leaves behind. Twenty answers and ten empty
    results.
  */
  lemma RateLimitedSessionTest(s: Service, t1: Call, later: seq<Call>, province: string, city: string, county: string)
    requires s.limiter.qps == 20 && s.limiter.window == 1 && RateLimiter.RefillDue(s.limiter, t1.now)
    requires |later| == 29 && forall i :: 0 <= i < |later| ==> t1.now <= later[i].now < t1.now + 1000
    requires GetT(s.index, s.cityToCountyMap, t1.net, province, city, county).result.Ok?
    requires forall i :: 0 <= i < |later| ==>
      GetT(s.index, GetT(s.index, s.cityToCountyMap, t1.net, province, city, county).cache, later[i].net, province, city, county).result.Ok?
    ensures var r := Serve(s, [t1] + later, province, city, county);
      Answered(r.answers) == 20 && |r.answers| - Answered(r.answers) == 10
  {
    var all := [t1] + later;
    AnswersFollowGrants(s, t1, later, province, city, county);
    var times := Times(later);
    assert Times(all) == [t1.now] + times by {
      assert Times(all)[1..] == Times(all[1..]);
      assert all[1..] == later;
    }
    RateLimiter.WindowBurstCount(s.limiter, t1.now, times);
    AnsweredCountsGrants(Serve(s, all, province, city, county).answers, RateLimiter.Run(s.limiter, Times(all)).permits);
  }
}
