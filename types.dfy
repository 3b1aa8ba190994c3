/**
 * The enumerations and constants of the problem interface
 * (`Status`, `VarType`, and the objective direction codes of `LinearProblem`).
 */
module Types {

  /** The solution status a solver assigns to a problem. */
  datatype Status = OPTIMAL | FEASIBLE | INFEASIBLE | UNBOUNDED | UNKNOWN

  /** The kind of a variable: binary, general integer or continuous. */
  datatype VarType = BOOL | INTEGER | REAL

  /** `LinearProblem.MAXIMIZE` and `LinearProblem.MINIMIZE`. */
  const MAXIMIZE: int := 0
  const MINIMIZE: int := 1

  /** A solution can be read only in these two states (`checkSolution`). */
  predicate SolutionAvailable(s: Status) {
    s == FEASIBLE || s == OPTIMAL
  }
}
