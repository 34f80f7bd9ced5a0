/** The request body shared by the advice and recommendation endpoints
    (app/models.py). Amounts are modelled as reals, not binary floats. */
module Profile {

  /** A user's financial profile; the risk tolerance is free text, expected
      to be "Conservative", "Moderate" or "Aggressive". */
  datatype UserFinanceProfile = UserFinanceProfile(
    income: real,
    expenses: real,
    goals: string,
    riskTolerance: string)
}
