/** Replacing the join rows of one owner: dedupe, validate, wipe, insert. */
module JoinRows {
  import opened Common

  // (owner, referenced) pairs: (user, role) or (role, permission)
  type Rows = set<(nat, nat)>

  datatype Failure = UnknownIds(missing: seq<nat>) | ForeignKeyViolation

  function Elements(ids: seq<nat>): set<nat> {
    set id | id in ids
  }

  function Others(rows: Rows, owner: nat): Rows {
    set row | row in rows && row.0 != owner
  }

  function RowsFor(owner: nat, ids: seq<nat>): Rows {
    set id | id in ids :: (owner, id)
  }

  // The ids in order of first occurrence: [...new Set(ids)]
  function Distinct(ids: seq<nat>): (r: seq<nat>)
    ensures Elements(r) == Elements(ids)
    ensures forall i, j | 0 <= i < j < |r| :: r[i] != r[j]
  {
    if |ids| == 0 then []
    else
      var n := |ids| - 1;
      var r := Distinct(ids[..n]);
      assert ids == ids[..n] + [ids[n]];
      assert forall id :: id in r <==> id in Elements(r);
      assert forall id :: id in ids[..n] <==> id in Elements(ids[..n]);
      if ids[n] in ids[..n] then r else r + [ids[n]]
  }

  function Missing(ids: seq<nat>, known: set<nat>): (r: seq<nat>)
    ensures forall id :: id in r <==> id in ids && id !in known
  {
    if |ids| == 0 then []
    else if ids[0] in known then Missing(ids[1..], known)
    else [ids[0]] + Missing(ids[1..], known)
  }

  lemma {:induction false} DistinctCount(ids: seq<nat>)
    requires forall i, j | 0 <= i < j < |ids| :: ids[i] != ids[j]
    ensures |Elements(ids)| == |ids|
  {
    if |ids| > 0 {
      var n := |ids| - 1;
      DistinctCount(ids[..n]);
      assert Elements(ids) == Elements(ids[..n]) + {ids[n]};
    }
  }

  // The count comparison detects unknown ids: as many distinct ids as found rows means all are known.
  lemma CountDetectsUnknown(ids: seq<nat>, known: set<nat>)
    requires forall i, j | 0 <= i < j < |ids| :: ids[i] != ids[j]
    ensures |Elements(ids) * known| == |ids| <==> Elements(ids) <= known
  {
    DistinctCount(ids);
    var found := Elements(ids) * known;
    assert Elements(ids) == found + (Elements(ids) - known);
    if Elements(ids) <= known { assert found == Elements(ids); }
    else { assert |Elements(ids) - known| > 0; }
  }

  function Replaced(rows: Rows, owner: nat, ids: seq<nat>, owners: set<nat>, known: set<nat>)
    : (Rows, Option<Failure>)
  {
    if !(Elements(ids) <= known) then (rows, Some(UnknownIds(Missing(Distinct(ids), known))))
    else if ids != [] && owner !in owners then (rows, Some(ForeignKeyViolation))
    else (Others(rows, owner) + RowsFor(owner, ids), None)
  }

  /**
   Replaces `owner`'s rows: all ids known and the owner exists, or nothing changes. `owners` and `known`
   are the ids the two foreign keys reference; a violated foreign key rolls the transaction back.
   */
  method ReplaceJoinRows(rows: Rows, owner: nat, ids: seq<nat>, owners: set<nat>, known: set<nat>)
    returns (after: Rows, failure: Option<Failure>)
    ensures failure.None? <==> Elements(ids) <= known && (ids == [] || owner in owners)
    ensures failure.None? ==>
      forall row :: row in after <==> (if row.0 == owner then row.1 in ids else row in rows)
    ensures failure.Some? ==> after == rows
    ensures failure.Some? && Elements(ids) <= known ==> failure.value.ForeignKeyViolation?
    ensures !(Elements(ids) <= known) ==>
      failure.Some? && failure.value.UnknownIds? && Elements(failure.value.missing) == Elements(ids) - known
    ensures (after, failure) == Replaced(rows, owner, ids, owners, known)
  {
    var distinctIds := Distinct(ids);
    assert forall id :: id in distinctIds <==> id in Elements(distinctIds);
    assert forall id :: id in ids <==> id in Elements(ids);
    CountDetectsUnknown(distinctIds, known);
    after := rows;
    if |distinctIds| > 0 {
      var existing := Elements(distinctIds) * known;
      if |existing| != |distinctIds| {
        var missing := Missing(distinctIds, known);
        return rows, Some(UnknownIds(missing));
      }
    } else {
      assert forall i | 0 <= i < |ids| :: ids[i] in ids;
      assert ids == [];
    }
    after := Others(after, owner);
    if |distinctIds| > 0 {
      if owner !in owners { return rows, Some(ForeignKeyViolation); }
      after := after + RowsFor(owner, distinctIds);
    }
    assert RowsFor(owner, distinctIds) == RowsFor(owner, ids);
    assert after == Others(rows, owner) + RowsFor(owner, ids);
    failure := None;
  }
}
