/** Versioned domain details: optimistic update, first insert, and persisting with one retry. */
module DomainDetail {
  import opened Records

  /** What one probe observed; `body` stands for the addresses, records, status, title and headers. */
  datatype Observation = Observation(fetchedAt: int, nextRefreshAt: int, body: nat)

  datatype Detail = Detail(version: nat, seen: Observation)

  datatype Upsert = Stored(detail: Detail) | Conflict(found: nat)

  /** The version that a write replaces; 0 when there is no row. */
  function VersionOf(row: Option<Detail>): nat {
    if row.None? then 0 else row.value.version
  }

  /** UPDATE ... WHERE version = expected. */
  predicate UpdateMatches(row: Option<Detail>, expected: nat) {
    row.Some? && row.value.version == expected
  }

  class DetailRepository {
    var details: map<nat, Detail>

    constructor ()
      ensures details == map[]
    {
      details := map[];
    }

    function Get(id: nat): Option<Detail>
      reads this
    {
      if id in details then Some(details[id]) else None
    }

    /**
     Stores the observation at the replaced version plus one, if there is no row or the row has the
     expected version; otherwise reports the conflict and leaves everything alone.
     */
    method UpsertWithOcc(id: nat, seen: Observation, expected: nat) returns (r: Upsert)
      modifies this
      ensures r.Stored? <==> old(Get(id)).None? || old(Get(id)).value.version == expected
      ensures r.Stored? ==> r.detail == Detail(VersionOf(old(Get(id))) + 1, seen) && Get(id) == Some(r.detail)
      ensures r.Conflict? ==> r.found == VersionOf(old(Get(id))) && details == old(details)
      ensures forall other :: other != id ==> Get(other) == old(Get(other))
    {
      var rowcount := 0;
      if id in details && details[id].version == expected {
        details := details[id := Detail(expected + 1, seen)];
        rowcount := 1;
      }
      if rowcount == 0 {
        if id !in details {
          details := details[id := Detail(1, seen)];
        } else {
          return Conflict(details[id].version);
        }
      }
      r := Stored(details[id]);
    }

    /** What other sessions leave of this row while the session is between two statements. */
    method OtherSessions(id: nat, row: Option<Detail>)
      modifies this
      ensures Get(id) == row
      ensures forall other :: other != id ==> Get(other) == old(Get(other))
    {
      if row.Some? {
        details := details[id := row.value];
      } else {
        details := details - {id};
      }
    }

    /**
     Persisting with one retry, against arbitrary interference: other sessions leave the row as
     `afterRead` between the first read and the first upsert, as `afterConflict` before the re-read
     and as `afterReread` before the second upsert. Success, first try or retry, leaves this
     observation at exactly the replaced version plus one; failure takes interference both times and
     leaves the row to the others.
     */
    method PersistDomainDetail(id: nat, seen: Observation, afterRead: Option<Detail>,
                               afterConflict: Option<Detail>, afterReread: Option<Detail>)
      returns (r: Option<Detail>)
      modifies this
      ensures var first := afterRead.None? || afterRead.value.version == VersionOf(old(Get(id)));
              var second := afterConflict.Some?
                            && (afterReread.None? || afterReread.value.version == afterConflict.value.version);
              && (r.Some? <==> first || second)
              && (first ==> r == Some(Detail(VersionOf(afterRead) + 1, seen)) && Get(id) == r)
              && (!first && second ==> r == Some(Detail(VersionOf(afterReread) + 1, seen)) && Get(id) == r)
              && (!first && afterConflict.None? ==> Get(id) == None)
              && (!first && !second && afterConflict.Some? ==> Get(id) == afterReread)
      ensures forall other :: other != id ==> Get(other) == old(Get(other))
    {
      var existing := Get(id);
      var expected := if existing.Some? then existing.value.version else 0;
      OtherSessions(id, afterRead);
      var upserted := UpsertWithOcc(id, seen, expected);
      if upserted.Stored? {
        return Some(upserted.detail);
      }
      OtherSessions(id, afterConflict);
      existing := Get(id);
      if existing.None? {
        return None;
      }
      expected := existing.value.version;
      OtherSessions(id, afterReread);
      upserted := UpsertWithOcc(id, seen, expected);
      if upserted.Stored? {
        return Some(upserted.detail);
      }
      r := None;
    }
  }
}
