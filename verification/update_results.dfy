/** The verdicts of `check_update` (`core/abc.py`). */
module UpdateResults {
  datatype Verdict =
    | UpToDate
    | Necessary
    /** Only in a dry run: an upstream rule would have been updated. */
    | PossiblyNecessary
    | Infeasible
}
