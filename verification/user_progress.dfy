/** The per-session checklist progress document: for each checklist, the ids
    of the items the visitor has ticked. */
module UserProgressModel {
  import opened Common

  datatype ChecklistProgress = ChecklistProgress(checklistId: Id, completedItems: seq<Id>)

  datatype UserProgress = UserProgress(
    sessionId: string,
    visitorId: string,
    checklistProgress: seq<ChecklistProgress>)

  /** `new UserProgress({ sessionId, checklistProgress: [] })`: `visitorId`
      defaults to '' and the list starts empty. Nothing is validated until
      the document is saved. */
  function NewUserProgress(sessionId: string): (r: UserProgress)
    ensures r.sessionId == sessionId && r.visitorId == "" && r.checklistProgress == []
  {
    UserProgress(sessionId, "", [])
  }

  /** The `required` validators run on save: a session id, and a checklist
      id on every entry (an absent id is the empty string here). */
  predicate PassesValidation(u: UserProgress) {
    && u.sessionId != ""
    && forall k :: 0 <= k < |u.checklistProgress| ==> u.checklistProgress[k].checklistId != ""
  }

  /** A new document saves exactly when it has a session id. */
  lemma NewProgressValidatesIffSession(sessionId: string)
    ensures PassesValidation(NewUserProgress(sessionId)) <==> sessionId != ""
  {
  }
}
