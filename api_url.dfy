/** Resolution of resource URLs returned by the backend (which are usually
    server-relative, such as `/static/gradients/x_dx.png`) against the API
    origin, as done by `getApiUrl` in frontend/lib/utils.ts. */
module ApiUrl {
  import opened Common

  /** The origin used when `NEXT_PUBLIC_API_URL` is unset or empty. */
  const DefaultBase: string := "http://localhost:8000"

  predicate StartsWith(s: string, prefix: string) {
    |prefix| <= |s| && s[..|prefix|] == prefix
  }

  predicate EndsWith(s: string, suffix: string) {
    |suffix| <= |s| && s[|s| - |suffix|..] == suffix
  }

  /** `process.env.NEXT_PUBLIC_API_URL || "http://localhost:8000"`; the
      environment variable is a parameter of the model. */
  function BaseUrl(env: Option<string>): string {
    if Truthy(env) then env.value else DefaultBase
  }

  /** `getApiUrl(path)`: absent or empty paths give "", anything that starts
      with "http" is taken as absolute, and every other path is joined to the
      base with exactly one '/'. */
  function GetApiUrl(path: Option<string>, env: Option<string>): (url: string)
    ensures !Truthy(path) ==> url == ""
    ensures Truthy(path) && StartsWith(path.value, "http") ==> url == path.value
    ensures Truthy(path) && !StartsWith(path.value, "http") ==>
      var base := BaseUrl(env);
      && StartsWith(url, base)
      && EndsWith(url, path.value)
      && |url| == |base| + |path.value| + (if path.value[0] == '/' then 0 else 1)
      && url[|base|] == '/'
  {
    if !Truthy(path) then ""
    else if StartsWith(path.value, "http") then path.value
    else
      var base := BaseUrl(env);
      var normalized := if StartsWith(path.value, "/") then path.value else "/" + path.value;
      base + normalized
  }

  /** With an absolute base (the default one is), every non-empty path resolves
      to a URL that itself starts with "http". */
  lemma ResolvedUrlIsAbsolute(path: string, env: Option<string>)
    requires path != ""
    requires StartsWith(BaseUrl(env), "http")
    ensures StartsWith(GetApiUrl(Some(path), env), "http")
  {
    if !StartsWith(path, "http") {
      var base := BaseUrl(env);
      var url := GetApiUrl(Some(path), env);
      assert url[..|base|] == base;
      assert url[..4] == url[..|base|][..4];
    }
  }

  /** Resolving an already resolved URL changes nothing, provided the base is
      absolute. */
  lemma GetApiUrlIdempotent(path: Option<string>, env: Option<string>)
    requires StartsWith(BaseUrl(env), "http")
    ensures GetApiUrl(Some(GetApiUrl(path, env)), env) == GetApiUrl(path, env)
  {
    if Truthy(path) {
      ResolvedUrlIsAbsolute(path.value, env);
    }
  }

  lemma DefaultBaseIsAbsolute()
    ensures StartsWith(BaseUrl(None), "http")
  {
  }
}
