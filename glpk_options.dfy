/**
 * `GLPKSolverOption`: the branching technique and the feasibility pump flag.
 * Both branching options are stored in the one `brTech` field, so at most
 * one of them is on.
 */
module GLPKOptions {
  /** The value of `brTech`: unset, the constant "last", or the always-down callback. */
  datatype Technique = Unset | Last | LastAlwaysDown

  /** GLPK's `GLP_BR_LFV` (last fractional variable) and `GLP_BR_DTH` (Driebeck–Tomlin). */
  const GLP_BR_LFV: int := 2
  const GLP_BR_DTH: int := 4

  /** `brTech(technique)`: the GLPK constant for a technique, LFV only for "last". */
  function BrTech(t: Technique): (r: int)
    ensures r == GLP_BR_LFV <==> t == Last
    ensures r == GLP_BR_LFV || r == GLP_BR_DTH
  {
    if t == Last then GLP_BR_LFV else GLP_BR_DTH
  }

  class SolverOption {
    var brTech: Technique
    var fpump: bool

    /** The defaults: no technique, no pump. */
    constructor()
      ensures !GetBranchingLast() && !GetBranchingLastAlwaysDown() && !GetFeasibilityPumpHeuristic()
    {
      brTech := Unset;
      fpump := false;
    }

    function GetBranchingLast(): bool
      reads this
    {
      brTech == Last
    }

    function GetBranchingLastAlwaysDown(): bool
      reads this
    {
      brTech == LastAlwaysDown
    }

    function GetFeasibilityPumpHeuristic(): bool
      reads this
    {
      fpump
    }

    /** The two branching options never hold together. */
    lemma BranchingExclusive()
      ensures !(GetBranchingLast() && GetBranchingLastAlwaysDown())
    {
    }

    /** `setBranchingLast`: on replaces any technique, off clears whichever was on. */
    method SetBranchingLast(enabled: bool)
      modifies this`brTech
      ensures GetBranchingLast() == enabled
      ensures !GetBranchingLastAlwaysDown()
      ensures !enabled ==> brTech == Unset
    {
      brTech := if enabled then Last else Unset;
    }

    /** `setBranchingLastAlwaysDown`: the same on the shared field. */
    method SetBranchingLastAlwaysDown(enabled: bool)
      modifies this`brTech
      ensures GetBranchingLastAlwaysDown() == enabled
      ensures !GetBranchingLast()
      ensures !enabled ==> brTech == Unset
    {
      brTech := if enabled then LastAlwaysDown else Unset;
    }

    /** `setFeasibilityPumpHeuristic`: leaves the branching technique alone. */
    method SetFeasibilityPumpHeuristic(enabled: bool)
      modifies this`fpump
      ensures GetFeasibilityPumpHeuristic() == enabled
    {
      fpump := enabled;
    }
  }
}
