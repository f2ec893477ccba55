/**
 The cached RSA key provider, used by one thread at a time: the sequential meaning that the concurrent lookups of
 `KeyCacheMachine` are measured against.
 */
module KeyCache {
  import opened Wrappers
  import opened JwkSet

  datatype Outcome = Value(pem: string) | Threw

  function Find(data: Keys, kid: string): string {
    if kid in data then data[kid] else ""
  }

  function Refreshed(data: Keys, fetched: Option<Keys>): Keys {
    if fetched.Some? then fetched.value else data
  }

  /** Returns the cached key; else refreshes, and then returns the key or the empty string. */
  function AtomicLookup(data: Keys, kid: string, fetched: Option<Keys>, throwing: bool): (Keys, Outcome) {
    if kid in data then (data, Value(data[kid]))
    else if fetched.None? && throwing then (data, Threw)
    else (Refreshed(data, fetched), Value(Find(Refreshed(data, fetched), kid)))
  }

  /** The cache after construction, or nothing when the constructor throws. */
  function Constructed(response: Response, throwing: bool): Option<Keys> {
    match Fetch(response)
    case Some(keys) => Some(keys)
    case None => if throwing then None else Some(map[])
  }

  /** The key map and its shared mutex, held through a shared pointer by all copies of one provider. */
  class Cache {
    var data: Keys
    var readers: nat
    var writer: bool

    predicate Free() reads this {
      readers == 0 && !writer
    }

    constructor ()
      ensures data == map[] && Free()
    {
      data, readers, writer := map[], 0, false;
    }
  }

  class RestJwksRSAKeyProvider {
    const cache: Cache
    const throwOnError: bool

    constructor (cache: Cache, throwOnError: bool)
      ensures this.cache == cache && this.throwOnError == throwOnError
    {
      this.cache, this.throwOnError := cache, throwOnError;
    }

    /** The constructor taking a provider function; a C++ constructor that throws leaves no object. */
    static method FromProvider(response: Response, throwOnError: bool := true)
      returns (r: Option<RestJwksRSAKeyProvider>)
      ensures r.Some? <==> Constructed(response, throwOnError).Some?
      ensures r.Some? <==> Fetch(response).Some? || !throwOnError
      ensures r.Some? ==> r.value.cache.data == if Fetch(response).Some? then Fetch(response).value else map[]
      ensures r.Some? ==> fresh(r.value) && fresh(r.value.cache) && r.value.cache.Free()
                          && r.value.throwOnError == throwOnError
                          && Some(r.value.cache.data) == Constructed(response, throwOnError)
    {
      var cache := new Cache();
      var p := new RestJwksRSAKeyProvider(cache, throwOnError);
      var ok := p.UpdateKeyCache(response);
      r := if ok then Some(p) else None;
    }

    /** The constructor taking a URI delegates without its `throw_on_error` argument, so it always throws on errors. */
    static method FromUri(response: Response, throwOnError: bool := true) returns (r: Option<RestJwksRSAKeyProvider>)
      ensures r.Some? <==> Fetch(response).Some?
      ensures r.Some? ==> r.value.throwOnError && fresh(r.value.cache) && Some(r.value.cache.data) == Fetch(response)
    {
      r := FromProvider(response);
    }

    /** A copy shares the cache. */
    method Copy() returns (p: RestJwksRSAKeyProvider)
      ensures fresh(p) && p.cache == cache && p.throwOnError == throwOnError
    {
      p := new RestJwksRSAKeyProvider(cache, throwOnError);
    }

    /** Replaces the whole map or leaves it alone; `ok` is false when the error is rethrown. */
    method UpdateKeyCache(response: Response) returns (ok: bool)
      modifies cache`data
      ensures cache.data == Refreshed(old(cache.data), Fetch(response))
      ensures cache.data == if Fetch(response).Some? then Fetch(response).value else old(cache.data)
      ensures !ok <==> Fetch(response).None? && throwOnError
    {
      match response {
        case ProviderThrew =>
          ok := !throwOnError;
        case Unparsable =>
          ok := !throwOnError;
        case Document(doc, pem) =>
          var keys := ExtractPubKeysPEM(doc, pem);
          if keys.None? || |keys.value| == 0 {
            ok := !throwOnError;
          } else {
            cache.data := keys.value;
            ok := true;
          }
      }
    }

    /**
     One lookup. Other threads run only while this one waits for the exclusive lock; `meanwhile` is the map they leave
     behind. `called` says whether the provider function was called.
     */
    method Call(kid: string, meanwhile: Option<Keys>, response: Response) returns (outcome: Outcome, called: bool)
      requires cache.Free()
      modifies cache
      ensures cache.Free()
      ensures kid in old(cache.data) ==>
                outcome == Value(old(cache.data)[kid]) && !called && cache.data == old(cache.data)
      ensures kid !in old(cache.data) ==>
        var data := Refreshed(old(cache.data), meanwhile);
        && (cache.data, outcome) == AtomicLookup(data, kid, Fetch(response), throwOnError)
        && (called <==> kid !in data)
      ensures kid !in old(cache.data) ==>
        var data := if meanwhile.Some? then meanwhile.value else old(cache.data);
        if kid in data then outcome == Value(data[kid]) && !called && cache.data == data
        else
          match Fetch(response)
          case Some(keys) =>
            called && cache.data == keys && outcome == Value(if kid in keys then keys[kid] else "")
          case None =>
            called && cache.data == data && outcome == if throwOnError then Threw else Value("")
    {
      cache.readers := cache.readers + 1;
      if kid in cache.data {
        cache.readers := cache.readers - 1;
        return Value(cache.data[kid]), false;
      }
      cache.readers := cache.readers - 1;

      if meanwhile.Some? {
        cache.data := meanwhile.value;
      }
      cache.writer := true;
      if kid in cache.data {
        cache.writer := false;
        return Value(cache.data[kid]), false;
      }
      called := true;
      var ok := UpdateKeyCache(response);
      if !ok {
        cache.writer := false;
        return Threw, called;
      }
      if kid in cache.data {
        outcome := Value(cache.data[kid]);
        cache.writer := false;
        return;
      }
      cache.writer := false;
      outcome := Value("");
    }
  }

  /** A key fetched through one copy is found through another one without calling the provider again. */
  method LookupThroughCopy(p: RestJwksRSAKeyProvider, kid: string, first: Response, second: Response)
    returns (outcome: Outcome, called: bool)
    requires p.cache.Free()
    requires Fetch(first).Some? && kid in Fetch(first).value && kid !in p.cache.data
    modifies p.cache
    ensures outcome == Value(Fetch(first).value[kid]) && !called
  {
    var q := p.Copy();
    var o, c := p.Call(kid, None, first);
    outcome, called := q.Call(kid, None, second);
  }
}
