/** The configuration records the signup core reads (src/config.rs, src/config/user.rs). */
module Configuration {
  import opened Calendar

  /** A participant to sign up. */
  datatype User = User(firstName: string, surname: string, email: string, enabled: bool)

  /** The configuration fields the signup core reads; the scheduling fields
      (checking interval, signup weekday, check-from time) are not used by it. */
  datatype Config = Config(users: seq<User>, baseUrl: string, rideId: string, rideWeekday: Weekday)
}
