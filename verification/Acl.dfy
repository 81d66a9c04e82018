/**
 Access control by address, with a cache of decisions over a cache of cities.

 An address stands for its canonical text. The geographic database and the matchers do not change.
 */
module Acl {
  import opened Options

  datatype City = City(timeZone: string, isoCode: string)

  // Whether there is a database, and what it knows of an address.
  datatype Geo = Geo(hasReader: bool, lookup: string -> Option<City>)

  datatype Matcher = ByIp(ip: string) | ByCidr(net: string) | ByTimeZone(zone: string) | ByCountry(iso: string)

  datatype Net = Net(loopback: string -> bool, isPrivate: string -> bool, contains: (string, string) -> bool)

  datatype Policy = Policy(allow: seq<Matcher>, deny: seq<Matcher>, defaultAllow: bool, allowLocal: bool)

  // ----- the decision, without caches

  function CityOf(geo: Geo, ip: string): Option<City> {
    if geo.hasReader then geo.lookup(ip) else None
  }

  predicate Matches(m: Matcher, ip: string, net: Net, geo: Geo) {
    match m
    case ByIp(other) => other == ip
    case ByCidr(n) => net.contains(n, ip)
    case ByTimeZone(zone) => CityOf(geo, ip).Some? && CityOf(geo, ip).value.timeZone == zone
    case ByCountry(iso) => CityOf(geo, ip).Some? && CityOf(geo, ip).value.isoCode == iso
  }

  predicate SomeMatch(ms: seq<Matcher>, ip: string, net: Net, geo: Geo) {
    exists i :: 0 <= i < |ms| && Matches(ms[i], ip, net, geo)
  }

  predicate ByRules(p: Policy, ip: string, net: Net, geo: Geo) {
    if SomeMatch(p.deny, ip, net, geo) then false
    else if SomeMatch(p.allow, ip, net, geo) then true
    else p.defaultAllow
  }

  // Nothing is no address.
  predicate Decision(p: Policy, ip: Option<string>, net: Net, geo: Geo) {
    match ip
    case None => false
    case Some(s) => net.loopback(s) || (p.allowLocal && net.isPrivate(s)) || ByRules(p, s, net, geo)
  }

  // ----- the city cache

  class Info {
    const str: string
    var city: Option<City>

    constructor (str: string)
      ensures this.str == str && city == None
    {
      this.str := str;
      city := None;
    }
  }
  // ----- what the decision means

  // Loopback is allowed, and private addresses where that is so configured. Of the others one that is denied is not allowed,
  // also when it is on the list of the allowed; then one on that list is; and for the rest it is the default.
  lemma DecisionIff(p: Policy, ip: string, net: Net, geo: Geo)
    ensures Decision(p, Some(ip), net, geo)
            <==> || net.loopback(ip)
                 || (p.allowLocal && net.isPrivate(ip))
                 || (&& (forall i :: 0 <= i < |p.deny| ==> !Matches(p.deny[i], ip, net, geo))
                     && (p.defaultAllow || exists i :: 0 <= i < |p.allow| && Matches(p.allow[i], ip, net, geo)))
    ensures !Decision(p, None, net, geo)
  {
  }

  // What the four kinds of matchers ask: for the address, the network it is in, and the zone and the country of its city,
  // which is known only where there is a database.
  lemma MatchesIff(ip: string, text: string, net: Net, geo: Geo)
    ensures Matches(ByIp(text), ip, net, geo) <==> ip == text
    ensures Matches(ByCidr(text), ip, net, geo) <==> net.contains(text, ip)
    ensures Matches(ByTimeZone(text), ip, net, geo)
            <==> geo.hasReader && exists city :: geo.lookup(ip) == Some(city) && city.timeZone == text
    ensures Matches(ByCountry(text), ip, net, geo)
            <==> geo.hasReader && exists city :: geo.lookup(ip) == Some(city) && city.isoCode == text
  {
  }

  // An instance: an address on both lists is denied.
  lemma DenyComesFirst(ip: string, net: Net, geo: Geo)
    requires !net.loopback(ip)
    ensures !Decision(Policy([ByIp(ip)], [ByIp(ip)], true, false), Some(ip), net, geo)
  {
    assert Matches([ByIp(ip)][0], ip, net, geo);
  }

  class CityCache {
    const geo: Geo
    var cities: map<string, City>

    constructor (geo: Geo)
      ensures this.geo == geo && cities == map[]
    {
      this.geo := geo;
      cities := map[];
    }

    // Only what the database says is in the cache.
    ghost predicate Valid()
      reads this
    {
      forall s :: s in cities ==> geo.hasReader && geo.lookup(s) == Some(cities[s])
    }

    ghost predicate Knows(info: Info)
      reads info
    {
      info.city.Some? ==> info.city == CityOf(geo, info.str)
    }

    method LookupCity(info: Info) returns (city: Option<City>)
      requires Valid() && Knows(info)
      modifies this`cities, info`city
      ensures Valid() && Knows(info)
      ensures city == CityOf(geo, info.str) == info.city
      ensures forall s :: s in old(cities) ==> s in cities
    {
      if info.city.Some? {
        return info.city;
      }
      if !geo.hasReader {
        return None;
      }
      if info.str in cities {
        info.city := Some(cities[info.str]);
        return info.city;
      }
      city := geo.lookup(info.str);
      if city.None? {
        return None;
      }
      cities := cities[info.str := city.value];
      info.city := city;
    }
  }

  // ----- the decision cache

  const CACHE_TTL: int := 60_000_000_000

  datatype Record = Record(city: Option<City>, allow: bool, created: int)

  predicate Expired(r: Record, now: int) {
    r.created + CACHE_TTL < now
  }

  // An address with the answer it got.
  datatype Logged = Logged(ip: string, allowed: bool)

  class Config {
    const policy: Policy
    const net: Net
    const cityCache: CityCache
    const forceResolveCountry: bool
    var ipCache: map<string, Record>
    var log: seq<Logged>

    constructor (policy: Policy, net: Net, cityCache: CityCache, forceResolveCountry: bool)
      requires cityCache.Valid()
      ensures this.policy == policy && this.net == net && this.cityCache == cityCache && this.forceResolveCountry == forceResolveCountry
      ensures Valid() && ipCache == map[] && log == []
    {
      this.policy, this.net, this.cityCache, this.forceResolveCountry := policy, net, cityCache, forceResolveCountry;
      ipCache, log := map[], [];
    }

    // Every cached answer is the one the rules give, and every cached city the one the database gives.
    ghost predicate Valid()
      reads this, cityCache
    {
      && cityCache.Valid()
      && (forall s :: s in ipCache ==> ipCache[s].allow == ByRules(policy, s, net, cityCache.geo))
      && (forall s :: s in ipCache && (forceResolveCountry || ipCache[s].city.Some?) ==> ipCache[s].city == CityOf(cityCache.geo, s))
    }

    method MatchOne(m: Matcher, info: Info) returns (matched: bool)
      requires cityCache.Valid() && cityCache.Knows(info)
      modifies cityCache`cities, info`city
      ensures cityCache.Valid() && cityCache.Knows(info)
      ensures matched == Matches(m, info.str, net, cityCache.geo)
    {
      match m
      case ByIp(ip) => matched := ip == info.str;
      case ByCidr(n) => matched := net.contains(n, info.str);
      case ByTimeZone(zone) =>
        var city := cityCache.LookupCity(info);
        matched := city.Some? && city.value.timeZone == zone;
      case ByCountry(iso) =>
        var city := cityCache.LookupCity(info);
        matched := city.Some? && city.value.isoCode == iso;
    }

    method Match(ms: seq<Matcher>, info: Info) returns (matched: bool)
      requires cityCache.Valid() && cityCache.Knows(info)
      modifies cityCache`cities, info`city
      ensures cityCache.Valid() && cityCache.Knows(info)
      ensures matched == SomeMatch(ms, info.str, net, cityCache.geo)
    {
      for i := 0 to |ms|
        invariant cityCache.Valid() && cityCache.Knows(info)
        invariant forall k :: 0 <= k < i ==> !Matches(ms[k], info.str, net, cityCache.geo)
      {
        matched := MatchOne(ms[i], info);
        if matched {
          return;
        }
      }
      matched := false;
    }

    method CacheRecord(info: Info, allow: bool, now: int)
      requires Valid() && cityCache.Knows(info) && allow == ByRules(policy, info.str, net, cityCache.geo)
      modifies this`ipCache, cityCache`cities, info`city
      ensures Valid()
      ensures info.str in ipCache && ipCache[info.str].allow == allow && ipCache[info.str].created == now
      ensures forall s :: s in old(ipCache) && s != info.str ==> s in ipCache && ipCache[s] == old(ipCache)[s]
    {
      hide ByRules;
      if forceResolveCountry && info.city.None? {
        var city := cityCache.LookupCity(info);
      }
      ipCache := ipCache[info.str := Record(info.city, allow, now)];
    }

    // The caches never show in an answer. Every answer is logged once, but for loopback and for no address.
    method IPAllowed(ip: Option<string>, now: int) returns (allowed: bool)
      requires Valid()
      modifies this`ipCache, this`log, cityCache`cities
      ensures Valid()
      ensures allowed == Decision(policy, ip, net, cityCache.geo)
      ensures log == old(log) + if ip.None? || net.loopback(ip.value) then [] else [Logged(ip.value, allowed)]
    {
      if ip.None? {
        return false;
      }
      var s := ip.value;
      if net.loopback(s) {
        return true;
      }
      if policy.allowLocal && net.isPrivate(s) {
        log := log + [Logged(s, true)];
        return true;
      }
      if s in ipCache && !Expired(ipCache[s], now) {
        allowed := ipCache[s].allow;
        log := log + [Logged(s, allowed)];
        return;
      }
      var info := new Info(s);
      var denied := Match(policy.deny, info);
      if denied {
        log := log + [Logged(s, false)];
        CacheRecord(info, false, now);
        return false;
      }
      var matched := Match(policy.allow, info);
      if matched {
        log := log + [Logged(s, true)];
        CacheRecord(info, true, now);
        return true;
      }
      log := log + [Logged(s, policy.defaultAllow)];
      CacheRecord(info, policy.defaultAllow, now);
      allowed := policy.defaultAllow;
    }

    // Any history of calls, at any times.
    method Answer(calls: seq<(Option<string>, int)>) returns (answers: seq<bool>)
      requires Valid()
      modifies this`ipCache, this`log, cityCache`cities
      ensures Valid() && |answers| == |calls|
      ensures forall k :: 0 <= k < |calls| ==> answers[k] == Decision(policy, calls[k].0, net, cityCache.geo)
    {
      answers := [];
      for i := 0 to |calls|
        invariant Valid() && |answers| == i
        invariant forall k :: 0 <= k < i ==> answers[k] == Decision(policy, calls[k].0, net, cityCache.geo)
      {
        hide Decision, ByRules;
        var allowed := IPAllowed(calls[i].0, calls[i].1);
        answers := answers + [allowed];
      }
    }

    // What summaries say of where an address is.
    method GetCachedCity(ip: string) returns (place: string)
      requires Valid()
      ensures ip !in ipCache ==> place == "unknown location"
      ensures place == "unknown location" || (CityOf(cityCache.geo, ip).Some? && place == PlaceOf(CityOf(cityCache.geo, ip).value))
      ensures ip in ipCache && forceResolveCountry && CityOf(cityCache.geo, ip).Some? ==> place == PlaceOf(CityOf(cityCache.geo, ip).value)
    {
      hide ByRules;
      if ip in ipCache {
        var city := ipCache[ip].city;
        if city.Some? {
          if city.value.isoCode != "" {
            return city.value.isoCode;
          }
          return city.value.timeZone;
        }
      }
      place := "unknown location";
    }
  }

  function PlaceOf(c: City): string {
    if c.isoCode != "" then c.isoCode else c.timeZone
  }

  // The country code where there is one.
  lemma PlaceIs(zone: string, iso: string)
    ensures PlaceOf(City(zone, iso)) == (if |iso| > 0 then iso else zone)
  {
  }
}
