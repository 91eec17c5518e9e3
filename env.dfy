/** The one configuration value the core consumes (src/config/env.ts). */
module Env {
  /** Default statistics window, in seconds, when no window is supplied. */
  const STATISTICS_TIME_WINDOW_SECONDS: int := 60
}
