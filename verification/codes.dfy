/** Name-to-code maps built from the provider's listings, and the lazily filled county cache. */
module Codes {
  import opened Outcomes
  import opened Remote
  import opened Endpoints

  /** The names a listing mentions. */
  function Names(entries: Entries): set<string>
  {
    set i | 0 <= i < |entries| :: entries[i].1
  }

  /**
    The name-to-code map built by putting (name, code) for each entry in
    turn: a name listed twice keeps the code of its last entry.
  */
  function Invert(entries: Entries): (m: map<string, string>)
    ensures m.Keys == Names(entries)
    ensures forall name :: name in m ==> (m[name], name) in entries
    decreases |entries|
  {
    if |entries| == 0 then map[]
    else
      var last := entries[|entries| - 1];
      var init := entries[..|entries| - 1];
      assert forall e :: e in init ==> e in entries;
      assert Names(entries) == Names(init) + {last.1} by {
        forall name | name in Names(entries) ensures name in Names(init) + {last.1} {
          var i :| 0 <= i < |entries| && entries[i].1 == name;
          if i < |entries| - 1 {
            assert init[i] == entries[i];
          }
        }
      }
      Invert(init)[last.1 := last.0]
  }

  /** Each name gets the code of its last entry. */
  lemma {:induction false} InvertLastWins(entries: Entries, i: int)
    requires 0 <= i < |entries|
    requires forall j :: i < j < |entries| ==> entries[j].1 != entries[i].1
    ensures entries[i].1 in Invert(entries) && Invert(entries)[entries[i].1] == entries[i].0
    decreases |entries|
  {
    if i < |entries| - 1 {
      var init := entries[..|entries| - 1];
      assert init[i] == entries[i];
      InvertLastWins(init, i);
    }
  }

  /** Names listed once each. */
  predicate DistinctNames(entries: Entries)
  {
    forall i, j :: 0 <= i < j < |entries| ==> entries[i].1 != entries[j].1
  }

  /** When every name is listed once, the built map is the exact inverse of the listing. */
  lemma InvertExact(entries: Entries, code: string, name: string)
    requires DistinctNames(entries)
    ensures name in Invert(entries) && Invert(entries)[name] == code <==> (code, name) in entries
  {
    if (code, name) in entries {
      var i :| 0 <= i < |entries| && entries[i] == (code, name);
      InvertLastWins(entries, i);
    }
  }

  // ---------------------------------------------------------------------------
  // County cache

  type CodeMap = map<string, string>

  /** Cached county maps, keyed by province code followed by city code. */
  type CountyCache = map<string, CodeMap>

  function CountyKey(provinceCode: string, cityCode: string): string
  {
    provinceCode + cityCode
  }

  /** A county lookup: its outcome, the cache after it, the requests it made. */
  datatype CountyLookup = CountyLookup(result: Result<string>, cache: CountyCache, requests: seq<Request>)

  const PopulationFailed := "cannot get county mapping data"
  const CountyMissing := "county not exist:"

  /** Fetch-once resolution of a county name under a province and city code. */
  function GetCountyCode(cache: CountyCache, net: Network, provinceCode: string, cityCode: string, county: string): (r: CountyLookup)
    // cached entries are never overwritten and only this key may be added
    ensures forall k :: k in cache ==> k in r.cache && r.cache[k] == cache[k]
    ensures r.cache.Keys <= cache.Keys + {CountyKey(provinceCode, cityCode)}
    // a cached key is read without a request
    ensures CountyKey(provinceCode, cityCode) in cache ==> r.requests == [] && r.cache == cache
    ensures CountyKey(provinceCode, cityCode) !in cache ==> r.requests == [CountyList(provinceCode, cityCode)]
    // a failed population leaves no entry and reports the cause
    ensures r.cache == cache && r.result.Err? && r.result.error.message == PopulationFailed
        <==> CountyKey(provinceCode, cityCode) !in cache && net.listing(CountyList(provinceCode, cityCode)).Unavailable?
    ensures CountyKey(provinceCode, cityCode) !in cache && net.listing(CountyList(provinceCode, cityCode)).Unavailable? ==>
      r.result == Err(Error(PopulationFailed, Some(net.listing(CountyList(provinceCode, cityCode)).cause)))
    // a successful population stores the inverted listing
    ensures CountyKey(provinceCode, cityCode) !in cache && net.listing(CountyList(provinceCode, cityCode)).Listed? ==>
      r.cache == cache[CountyKey(provinceCode, cityCode) := Invert(net.listing(CountyList(provinceCode, cityCode)).entries)]
    // once the map is there, the name is looked up in it
    ensures CountyKey(provinceCode, cityCode) in r.cache ==>
      var counties := r.cache[CountyKey(provinceCode, cityCode)];
      r.result == if county in counties then Ok(counties[county]) else Err(Fail(CountyMissing + county))
  {
    var key := CountyKey(provinceCode, cityCode);
    var fetched :=
      if key in cache then CountyLookup(Ok(key), cache, [])
      else
        var request := CountyList(provinceCode, cityCode);
        match net.listing(request)
        case Unavailable(cause) => CountyLookup(Err(Error(PopulationFailed, Some(cause))), cache, [request])
        case Listed(entries) => CountyLookup(Ok(key), cache[key := Invert(entries)], [request]);
    if fetched.result.Err? then fetched
    else
      var counties := fetched.cache[key];
      if county in counties then fetched.(result := Ok(counties[county]))
      else
        CountyErrorsDistinct(county);
        fetched.(result := Err(Fail(CountyMissing + county)))
  }

  /** The two county failures are told apart by their messages. */
  lemma CountyErrorsDistinct(county: string)
    ensures Fail(CountyMissing + county).message != PopulationFailed
  {
    assert (CountyMissing + county)[1] == 'o' != PopulationFailed[1];
  }

  /** After a lookup that populated the cache, a second lookup for the same pair requests nothing and sees the same map. */
  lemma SecondLookupIsCached(cache: CountyCache, net: Network, net2: Network, provinceCode: string, cityCode: string, county: string, county2: string)
    requires GetCountyCode(cache, net, provinceCode, cityCode, county).result.Ok?
    ensures var first := GetCountyCode(cache, net, provinceCode, cityCode, county);
      var second := GetCountyCode(first.cache, net2, provinceCode, cityCode, county2);
      second.requests == [] && second.cache == first.cache
      && (county2 == county ==> second.result == first.result)
  {
  }

  /** Keys of equal-length province codes identify the pair. */
  lemma CountyKeyInjective(p1: string, c1: string, p2: string, c2: string)
    requires |p1| == |p2| && CountyKey(p1, c1) == CountyKey(p2, c2)
    ensures p1 == p2 && c1 == c2
  {
    assert p1 == CountyKey(p1, c1)[..|p1|];
    assert c1 == CountyKey(p1, c1)[|p1|..];
  }

  /** Without that, two pairs can share one cache entry: ("1", "23") and ("12", "3"). */
  lemma CountyKeyCollision()
    ensures CountyKey("1", "23") == CountyKey("12", "3")
  {
  }
}
