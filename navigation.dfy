/** The in-memory router state one funnel page hands to the next. */
module Navigation {

  /** What the registration form passes to `/payment`. */
  datatype PaymentNav = PaymentNav(id: string, teamName: string, teamLeaderName: string, teamLeaderEmail: string)

  /** What the payment page passes to `/success`: the team name only. */
  datatype SuccessNav = SuccessNav(teamName: string)
}
