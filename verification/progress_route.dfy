/** Checklist progress of the current session: GET / (read), POST / (save
    one checklist's ticked items) and DELETE /:checklistId (reset one
    checklist). All three sit behind the visitor gate. */
module ProgressRoutes {
  import opened Common
  import opened UserProgressModel
  import opened Database
  import opened Sessions
  import opened AuthMiddleware

  /** The index of the first entry for `id`, or -1 (`findIndex`). */
  function IndexOf(entries: seq<ChecklistProgress>, id: Id): (i: int)
    ensures -1 <= i < |entries|
    ensures i == -1 <==> forall k :: 0 <= k < |entries| ==> entries[k].checklistId != id
    ensures i >= 0 ==> entries[i].checklistId == id
    ensures i >= 0 ==> forall k :: 0 <= k < i ==> entries[k].checklistId != id
  {
    if entries == [] then -1
    else if entries[0].checklistId == id then 0
    else
      var j := IndexOf(entries[1..], id);
      if j == -1 then -1 else j + 1
  }

  /** The list after saving `items` for checklist `id`: the first entry for
      `id` gets the new items, or a new entry is appended. */
  function Upsert(entries: seq<ChecklistProgress>, id: Id, items: seq<Id>): seq<ChecklistProgress> {
    var i := IndexOf(entries, id);
    if i > -1 then entries[i := entries[i].(completedItems := items)]
    else entries + [ChecklistProgress(id, items)]
  }

  /** The list after resetting checklist `id`: every entry for it removed. */
  function Without(entries: seq<ChecklistProgress>, id: Id): (r: seq<ChecklistProgress>)
    ensures |r| <= |entries|
    ensures forall e :: e in r <==> e in entries && e.checklistId != id
  {
    if entries == [] then []
    else if entries[0].checklistId == id then Without(entries[1..], id)
    else [entries[0]] + Without(entries[1..], id)
  }

  /** No checklist appears twice in the list. */
  predicate Distinct(entries: seq<ChecklistProgress>) {
    forall i, j :: 0 <= i < j < |entries| ==> entries[i].checklistId != entries[j].checklistId
  }

  /** Saving for an absent checklist appends exactly one entry at the end. */
  lemma UpsertAbsentAppends(entries: seq<ChecklistProgress>, id: Id, items: seq<Id>)
    requires forall k :: 0 <= k < |entries| ==> entries[k].checklistId != id
    ensures Upsert(entries, id, items) == entries + [ChecklistProgress(id, items)]
  {
  }

  /** Saving for a present checklist replaces the items of its first entry
      only: the length, every other entry and the order stay. */
  lemma UpsertPresentReplacesFirst(entries: seq<ChecklistProgress>, id: Id, items: seq<Id>, i: int)
    requires 0 <= i < |entries| && entries[i].checklistId == id
    requires forall k :: 0 <= k < i ==> entries[k].checklistId != id
    ensures var r := Upsert(entries, id, items);
      && |r| == |entries|
      && r[i] == ChecklistProgress(id, items)
      && forall k :: 0 <= k < |entries| && k != i ==> r[k] == entries[k]
  {
    assert IndexOf(entries, id) == i;
  }

  /** After a save, looking the checklist up yields the submitted items. */
  lemma UpsertThenLookup(entries: seq<ChecklistProgress>, id: Id, items: seq<Id>)
    ensures var r := Upsert(entries, id, items);
      IndexOf(r, id) >= 0 && r[IndexOf(r, id)].completedItems == items
  {
    var i := IndexOf(entries, id);
    var r := Upsert(entries, id, items);
    if i > -1 {
      assert forall k :: 0 <= k < i ==> r[k] == entries[k];
      IndexOfFirst(r, id, i);
    } else {
      assert forall k :: 0 <= k < |entries| ==> r[k] == entries[k];
      IndexOfFirst(r, id, |entries|);
    }
  }

  /** A save keeps every checklist distinct. */
  lemma UpsertKeepsDistinct(entries: seq<ChecklistProgress>, id: Id, items: seq<Id>)
    requires Distinct(entries)
    ensures Distinct(Upsert(entries, id, items))
  {
    var i := IndexOf(entries, id);
    var r := Upsert(entries, id, items);
    if i > -1 {
      assert forall k :: 0 <= k < |r| ==> r[k].checklistId == entries[k].checklistId;
    } else {
      forall a, b | 0 <= a < b < |r| ensures r[a].checklistId != r[b].checklistId {
        if b == |entries| {
          assert r[a] == entries[a];
        }
      }
    }
  }

  /** Reset of a list that starts with `e`: `e` is kept exactly when it is
      for another checklist, in front of the reset rest. */
  lemma WithoutCons(e: ChecklistProgress, rest: seq<ChecklistProgress>, id: Id)
    ensures Without([e] + rest, id) == (if e.checklistId == id then [] else [e]) + Without(rest, id)
  {
    assert ([e] + rest)[1..] == rest;
  }

  /** Reset distributes over concatenation: it filters a list piece by
      piece, so the surviving entries keep their order. */
  lemma {:induction false} WithoutAppend(a: seq<ChecklistProgress>, b: seq<ChecklistProgress>, id: Id)
    ensures Without(a + b, id) == Without(a, id) + Without(b, id)
  {
    if a == [] {
      assert a + b == b;
    } else {
      var e, t := a[0], a[1..];
      var head: seq<ChecklistProgress> := if e.checklistId == id then [] else [e];
      calc {
        Without(a + b, id);
        { assert a + b == [e] + (t + b); }
        Without([e] + (t + b), id);
        { WithoutCons(e, t + b, id); }
        head + Without(t + b, id);
        { WithoutAppend(t, b, id); }
        head + (Without(t, id) + Without(b, id));
        (head + Without(t, id)) + Without(b, id);
        { assert a == [e] + t; WithoutCons(e, t, id); }
        Without(a, id) + Without(b, id);
      }
    }
  }

  /** Reset keeps the other entries in their order. */
  lemma {:induction false} WithoutKeepsOrder(entries: seq<ChecklistProgress>, id: Id, other: Id)
    requires other != id
    ensures Without(entries, id) == Without(Without(entries, id), id)
    ensures Keep(Without(entries, id), other) == Keep(entries, other)
  {
    if entries != [] {
      WithoutKeepsOrder(entries[1..], id, other);
      if entries[0].checklistId != id {
        assert ([entries[0]] + Without(entries[1..], id))[1..] == Without(entries[1..], id);
      }
    }
  }

  /** The entries for checklist `id`, in order. */
  function Keep(entries: seq<ChecklistProgress>, id: Id): (r: seq<ChecklistProgress>)
    ensures forall e :: e in r <==> e in entries && e.checklistId == id
  {
    if entries == [] then []
    else if entries[0].checklistId == id then [entries[0]] + Keep(entries[1..], id)
    else Keep(entries[1..], id)
  }

  /** Reset of a checklist that has no entry changes nothing. */
  lemma {:induction false} WithoutAbsent(entries: seq<ChecklistProgress>, id: Id)
    requires forall k :: 0 <= k < |entries| ==> entries[k].checklistId != id
    ensures Without(entries, id) == entries
  {
    if entries != [] {
      WithoutAbsent(entries[1..], id);
      assert entries == [entries[0]] + entries[1..];
    }
  }

  /** `findIndex`, by a scan from the front. */
  method FindIndex(entries: seq<ChecklistProgress>, id: Id) returns (i: int)
    ensures i == IndexOf(entries, id)
  {
    i := 0;
    while i < |entries|
      invariant 0 <= i <= |entries|
      invariant forall k :: 0 <= k < i ==> entries[k].checklistId != id
    {
      if entries[i].checklistId == id {
        IndexOfFirst(entries, id, i);
        return;
      }
      i := i + 1;
    }
    return -1;
  }

  /** The first entry for `id` is the one `IndexOf` names. */
  lemma IndexOfFirst(entries: seq<ChecklistProgress>, id: Id, i: int)
    requires 0 <= i < |entries| && entries[i].checklistId == id
    requires forall k :: 0 <= k < i ==> entries[k].checklistId != id
    ensures IndexOf(entries, id) == i
  {
  }

  datatype ProgressReply =
    | ProgressList(checklistProgress: seq<ChecklistProgress>)  // 200 with the document
    | ProgressReset                                            // 200 { success: true }
    | Refused(status: int, error: string)

  /** The stored list of session `sid`, empty when it has no document. */
  function StoredList(progress: map<string, UserProgress>, sid: string): seq<ChecklistProgress> {
    if sid in progress then progress[sid].checklistProgress else []
  }

  /** GET /: the session's list, or an empty list when it has none; 401
      behind the gate, 500 when the store fails. */
  function GetProgress(progress: map<string, UserProgress>, sess: Session?, sid: string, fails: bool)
    : (r: ProgressReply)
    reads sess
    ensures RequireAuth(sess).Reject? ==> r == Refused(401, RequireAuth(sess).error)
    ensures RequireAuth(sess).Next? && fails ==> r == Refused(500, "Failed to fetch progress")
    ensures RequireAuth(sess).Next? && !fails && sid !in progress ==> r == ProgressList([])
    ensures RequireAuth(sess).Next? && !fails && sid in progress ==>
      r == ProgressList(progress[sid].checklistProgress)
  {
    if RequireAuth(sess).Reject? then Refused(401, RequireAuth(sess).error)
    else if fails then Refused(500, "Failed to fetch progress")
    else ProgressList(StoredList(progress, sid))
  }

  /** POST /: loads (or starts) the session's document, replaces or appends
      the checklist's entry, and saves. A document that fails validation
      (no session id, no checklist id) or a failing store answers 500 and
      stores nothing. */
  method SaveProgress(db: Store, sess: Session?, sid: string, checklistId: Option<Id>,
                      completedItems: seq<Id>, fails: bool) returns (r: ProgressReply)
    requires db.Valid()
    modifies db`progress
    ensures db.Valid()
    ensures var id := OrElse(checklistId, "");
      var saved := Upsert(StoredList(old(db.progress), sid), id, completedItems);
      if RequireAuth(sess).Reject? then
        r == Refused(401, RequireAuth(sess).error) && db.progress == old(db.progress)
      else if fails || sid == "" || id == "" then
        r == Refused(500, "Failed to save progress") && db.progress == old(db.progress)
      else
        && r == ProgressList(saved)
        && sid in db.progress && db.progress[sid].checklistProgress == saved
        && db.progress[sid].visitorId ==
             (if sid in old(db.progress) then old(db.progress)[sid].visitorId else "")
        && db.progress == old(db.progress)[sid := db.progress[sid]]
  {
    if RequireAuth(sess).Reject? {
      return Refused(401, RequireAuth(sess).error);
    }
    if fails {
      return Refused(500, "Failed to save progress");
    }
    var progress: UserProgress;
    if sid in db.progress {
      progress := db.progress[sid];
    } else {
      progress := NewUserProgress(sid);
    }
    var id := OrElse(checklistId, "");
    var list := progress.checklistProgress;
    assert list == StoredList(old(db.progress), sid);
    var i := FindIndex(list, id);
    if i > -1 {
      list := list[i := list[i].(completedItems := completedItems)];
    } else {
      list := list + [ChecklistProgress(id, completedItems)];
    }
    assert list == Upsert(StoredList(old(db.progress), sid), id, completedItems);
    progress := progress.(checklistProgress := list);

    // save(): the schema validators run first
    if !PassesValidation(progress) {
      if sid != "" {
        assert list[if i > -1 then i else |list| - 1].checklistId == id;
      }
      return Refused(500, "Failed to save progress");
    }
    // the validators saw the session id and the upserted entry's id
    assert progress.sessionId == sid;
    assert list[if i > -1 then i else |list| - 1].checklistId == id;
    db.progress := db.progress[sid := progress];
    return ProgressList(list);
  }

  /** DELETE /:checklistId: drops every entry for that checklist from the
      session's document, if it has one; reports success either way. */
  method ResetProgress(db: Store, sess: Session?, sid: string, checklistId: Id, fails: bool)
    returns (r: ProgressReply)
    requires db.Valid()
    modifies db`progress
    ensures db.Valid()
    ensures RequireAuth(sess).Reject? ==>
      r == Refused(401, RequireAuth(sess).error) && db.progress == old(db.progress)
    ensures RequireAuth(sess).Next? && fails ==>
      r == Refused(500, "Failed to reset progress") && db.progress == old(db.progress)
    ensures RequireAuth(sess).Next? && !fails ==>
      && r == ProgressReset
      && (sid !in old(db.progress) ==> db.progress == old(db.progress))
      && (sid in old(db.progress) ==>
            db.progress == old(db.progress)[sid := old(db.progress)[sid].(
              checklistProgress := Without(old(db.progress)[sid].checklistProgress, checklistId))])
  {
    if RequireAuth(sess).Reject? {
      return Refused(401, RequireAuth(sess).error);
    }
    if fails {
      return Refused(500, "Failed to reset progress");
    }
    if sid in db.progress {
      var progress := db.progress[sid];
      progress := progress.(checklistProgress := Without(progress.checklistProgress, checklistId));
      db.progress := db.progress[sid := progress];
    }
    return ProgressReset;
  }
}
