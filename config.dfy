/** The build-time environment the frontend reads, as `Option<string>`
    (`import.meta.env.X` is undefined when unset). */
module Config {
  import opened Wrappers

  const DefaultApiBase: string := "http://localhost:3000"

  /** `VITE_API_BASE_URL ?? "http://localhost:3000"`: `??` replaces only an
      unset value, so an empty string is kept as it is. The same rule is used
      by frontend/src/main.js and frontend/src/otel.js. */
  function ApiBase(env: Option<string>): (base: string)
    ensures env.None? ==> base == DefaultApiBase
    ensures env.Some? ==> base == env.value
  {
    env.GetOr(DefaultApiBase)
  }
}
