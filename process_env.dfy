/**
 * The process environment the core reads (`process.env`), as one immutable
 * value handed to every operation instead of ambient globals.
 */
module ProcessEnv {
  import opened Wrappers

  datatype Env = Env(
    sessionSecret: Option<string>,      // SESSION_SECRET
    sessionTtlSeconds: Option<int>,     // SESSION_TTL_SECONDS, already read as a number
    sessionCookieName: Option<string>,  // SESSION_COOKIE_NAME
    dashUser: Option<string>,           // DASH_USER
    dashPass: Option<string>,           // DASH_PASS
    nodeEnv: Option<string>,            // NODE_ENV
    metricsApiBase: Option<string>)     // NEXT_PUBLIC_METRICS_API_BASE

  /** `v ?? d`: the default replaces only an absent value, never an empty one. */
  function OrElse<T>(v: Option<T>, d: T): (r: T)
    ensures v.Some? ==> r == v.value
    ensures v.None? ==> r == d
  {
    match v
    case Some(x) => x
    case None => d
  }

  /** `process.env.DASH_USER ?? ""` and `process.env.DASH_PASS ?? ""`. */
  function DashUser(env: Env): string { OrElse(env.dashUser, "") }
  function DashPass(env: Env): string { OrElse(env.dashPass, "") }
}
