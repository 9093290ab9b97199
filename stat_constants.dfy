/** The frontend's vocabulary of plays (frontend/src/utils/statConstants.js):
    for each action, the results it can have, and the results that count
    as a success. */
module StatConstants {
  /** `VOLLEYBALL_ACTIONS`. */
  const VolleyballActions: map<string, seq<string>> := map[
    "Serve" := ["Ace", "Out of System", "In Play", "Error"],
    "Serve Recieve" := ["Perfect", "Decent", "Out of System", "Error"],
    "Set" := ["Perfect", "Decent", "Error", "Setter Dump"],
    "Spike" := ["Kill", "Block Out", "In Play", "Error", "Hard Blocked", "Soft Blocked"],
    "Block" := ["Kill Block", "Soft Block", "Error"],
    "Dig" := ["Perfect", "Decent", "Out of System", "Error"]
  ]

  /** `SUCCESS_RESULTS`. */
  const SuccessResults: map<string, seq<string>> := map[
    "Serve" := ["Ace", "In Play"],
    "Serve Recieve" := ["Perfect", "Decent"],
    "Set" := ["Perfect", "Decent", "Setter Dump"],
    "Spike" := ["Kill", "Block Out"],
    "Block" := ["Kill Block", "Soft Block"],
    "Dig" := ["Perfect", "Decent"]
  ]

  /** The six actions, as listed. */
  const Actions: seq<string> := ["Serve", "Serve Recieve", "Set", "Spike", "Block", "Dig"]

  /** A result the entry form offers for the action. */
  predicate IsValidResult(action: string, result: string) {
    action in VolleyballActions && result in VolleyballActions[action]
  }

  /** A result counted as a success for the action. */
  predicate IsSuccess(action: string, result: string) {
    action in SuccessResults && result in SuccessResults[action]
  }

  /** Both tables are keyed by exactly the six actions, spelled alike
      (including 'Serve Recieve'). */
  lemma SameKeys()
    ensures VolleyballActions.Keys == SuccessResults.Keys
    ensures forall a :: a in VolleyballActions <==> a in Actions
  {
  }

  /** Every success is a valid result of its action. */
  lemma SuccessIsValid(action: string, result: string)
    requires IsSuccess(action, result)
    ensures IsValidResult(action, result)
  {
  }

  /** 'Error' can be recorded for every action and is never a success. */
  lemma ErrorValidNeverSuccess(action: string)
    requires action in Actions
    ensures IsValidResult(action, "Error")
    ensures !IsSuccess(action, "Error")
  {
  }

  /** No result list repeats an entry. */
  lemma NoDuplicateResults(action: string)
    requires action in VolleyballActions
    ensures forall i, j :: 0 <= i < j < |VolleyballActions[action]| ==>
              VolleyballActions[action][i] != VolleyballActions[action][j]
    ensures forall i, j :: 0 <= i < j < |SuccessResults[action]| ==>
              SuccessResults[action][i] != SuccessResults[action][j]
  {
  }
}
