/**
 * API-key authentication: a key is checked against an in-memory cache, then against the
 * built-in test key. The database lookup for other keys is not part of this model, so
 * the validation is the one `get_current_tenant` performs, which passes no database.
 */
module Auth {
  import opened Wrappers
  import opened Schemas

  /** The tenant information a valid key yields. */
  datatype TenantInfo = TenantInfo(tenantId: Uuid, name: string, isTest: bool)

  /** An HTTP error with its status code and detail message. */
  datatype AuthError = AuthError(statusCode: int, detail: string)

  const TestApiKey: string := "test-api-key"

  /** `UUID("00000000-0000-0000-0000-000000000001")`. */
  const TestTenantId: Uuid := 1

  const TestTenant: TenantInfo := TenantInfo(TestTenantId, "Test Tenant", true)

  const MissingKey: AuthError := AuthError(401, "Missing API key. Include X-API-Key header.")
  const InvalidKey: AuthError := AuthError(401, "Invalid API key")

  /** `not api_key`: no header, or an empty one. */
  predicate Absent(apiKey: Option<string>) {
    apiKey.None? || apiKey.value == []
  }

  /** The outcome of `validate_api_key` on a cache: the result and the cache afterwards. */
  function Validation(cache: map<string, TenantInfo>, apiKey: Option<string>): (Result<TenantInfo, AuthError>, map<string, TenantInfo>)
  {
    if Absent(apiKey) then (Failure(MissingKey), cache)
    else if apiKey.value in cache then (Success(cache[apiKey.value]), cache)
    else if apiKey.value == TestApiKey then (Success(TestTenant), cache[apiKey.value := TestTenant])
    else (Failure(InvalidKey), cache)
  }

  /** `clear_cache`: drops one key, or everything when no key is given. */
  function Cleared(cache: map<string, TenantInfo>, apiKey: Option<string>): (r: map<string, TenantInfo>)
    ensures !Absent(apiKey) ==> apiKey.value !in r
    ensures !Absent(apiKey) ==> forall k :: k in cache && k != apiKey.value ==> k in r && r[k] == cache[k]
    ensures r.Keys <= cache.Keys
    ensures Absent(apiKey) ==> r == map[]
  {
    if Absent(apiKey) then map[] else cache - {apiKey.value}
  }

  class AuthMiddleware {
    var cache: map<string, TenantInfo>

    constructor()
      ensures cache == map[]
    {
      cache := map[];
    }

    /** `validate_api_key` with no database session. */
    method ValidateApiKey(apiKey: Option<string>) returns (r: Result<TenantInfo, AuthError>)
      modifies this
      ensures (r, cache) == Validation(old(cache), apiKey)
    {
      if apiKey.None? || apiKey.value == [] {
        return Failure(MissingKey);
      }
      var key := apiKey.value;
      if key in cache {
        return Success(cache[key]);
      }
      if key == TestApiKey {
        var tenantInfo := TenantInfo(TestTenantId, "Test Tenant", true);
        cache := cache[key := tenantInfo];
        return Success(tenantInfo);
      }
      return Failure(InvalidKey);
    }

    /** `clear_cache`. */
    method ClearCache(apiKey: Option<string>)
      modifies this
      ensures cache == Cleared(old(cache), apiKey)
    {
      if apiKey.Some? && apiKey.value != [] {
        cache := cache - {apiKey.value};
      } else {
        cache := map[];
      }
    }
  }

  // --- Cache properties ---

  /**
   * The cache changes only on a successful validation, and then only by recording the
   * returned tenant under the key; nothing is ever removed.
   */
  lemma CacheGrowsOnlyOnSuccess(cache: map<string, TenantInfo>, apiKey: Option<string>)
    ensures var (r, after) := Validation(cache, apiKey);
      && cache.Keys <= after.Keys
      && (after != cache ==> r.Success? && !Absent(apiKey) && after == cache[apiKey.value := r.value])
  {
  }

  /** A successful validation leaves the key cached with the tenant it returned. */
  lemma SuccessIsCached(cache: map<string, TenantInfo>, apiKey: Option<string>)
    ensures var (r, after) := Validation(cache, apiKey);
      r.Success? ==> !Absent(apiKey) && apiKey.value in after && after[apiKey.value] == r.value
  {
  }

  /** Validating the same key twice gives the same answer, and the second call changes nothing. */
  lemma ValidateTwice(cache: map<string, TenantInfo>, apiKey: Option<string>)
    ensures var (r1, c1) := Validation(cache, apiKey);
      var (r2, c2) := Validation(c1, apiKey);
      r2 == r1 && c2 == c1
  {
  }

  /** A missing or empty key is refused with 401 before the cache is consulted. */
  lemma MissingKeyRefused(cache: map<string, TenantInfo>, apiKey: Option<string>)
    requires Absent(apiKey)
    ensures Validation(cache, apiKey) == (Failure(MissingKey), cache)
    ensures MissingKey.statusCode == 401
  {
  }

  /** A cached key is answered from the cache, even the test key. */
  lemma CachedKeyAnswered(cache: map<string, TenantInfo>, key: string)
    requires key != [] && key in cache
    ensures Validation(cache, Some(key)) == (Success(cache[key]), cache)
  {
  }

  /** The test key, once validated on an empty cache, yields the test tenant and is cached. */
  lemma TestKeyAccepted(cache: map<string, TenantInfo>)
    requires TestApiKey !in cache
    ensures Validation(cache, Some(TestApiKey)) == (Success(TestTenant), cache[TestApiKey := TestTenant])
    ensures TestTenant.tenantId == 1 && TestTenant.isTest
  {
  }

  /** A key that is neither cached nor the test key is refused, whatever else is cached. */
  lemma UnknownKeyRefused(cache: map<string, TenantInfo>, key: string)
    requires key != [] && key !in cache && key != TestApiKey
    ensures Validation(cache, Some(key)) == (Failure(InvalidKey), cache)
  {
  }

  /** Clearing an absent key changes nothing. */
  lemma ClearAbsentKey(cache: map<string, TenantInfo>, key: string)
    requires key != [] && key !in cache
    ensures Cleared(cache, Some(key)) == cache
  {
  }

  /** After clearing a key, the next validation of it rebuilds the entry (for the test key) or refuses it. */
  lemma ClearThenValidate(cache: map<string, TenantInfo>, key: string)
    requires key != []
    ensures var (r, after) := Validation(Cleared(cache, Some(key)), Some(key));
      (key == TestApiKey ==> r == Success(TestTenant) && key in after && after[key] == TestTenant)
      && (key != TestApiKey ==> r == Failure(InvalidKey))
  {
  }
}
