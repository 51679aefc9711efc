/** What the two create pages share: blank-to-null shaping and the outcome of pressing Save. */
module Forms {
  import opened Wrappers
  import opened Text
  import opened Store

  /** `s.trim() || null`: the trimmed text, or null when nothing but white space was typed. */
  function BlankToNull(s: string): (r: Option<string>)
    ensures r.None? <==> IsBlank(s)
    ensures r.Some? ==> r.value == Trim(s) && r.value != []
  {
    if Trim(s) == [] then None else Some(Trim(s))
  }

  /**
   * What one press of Save led to: nothing at all (no user, or a role that may
   * not add), an alert naming a missing or inconsistent field, a row written,
   * a database error, or a start or end time that `Date` could not read.
   */
  datatype SaveOutcome = Ignored | Rejected(message: string) | Saved | InsertFailed(error: StoreError) | InvalidTime
}
