/** Compile-time constants of the device firmware (Device/config.h) and the
    one literal threshold of the device-twin updater (Device/utility.cpp). */
module Config {

  /** Send interval in milliseconds before any device-twin update. */
  const INTERVAL: int := 5000

  /** Capacity of the telemetry payload buffer, terminating NUL included. */
  const MESSAGE_MAX_LEN: nat := 512

  /** A temperature strictly above this raises the temperature alert. */
  const TEMPERATURE_ALERT: int := 30

  /** An accelerometer component whose magnitude is strictly above this raises the motion alert. */
  const ACCELEROMETER_ALERT: int := 100

  /** Defined next to the other thresholds, but never consulted by the alert logic. */
  const GYROMETER_ALERT: int := 5000

  /** A twin update is applied only when its interval is strictly above this. */
  const INTERVAL_UPDATE_FLOOR: int := 500
}
