/**
 * The row loop of `main`: one call of `editVM` per CSV row, in order. Rows
 * are the field lists the CSV reader yields; the platform's handling of each
 * row's request is given per row.
 */
module BatchDriver {
  import opened Wrappers
  import opened Inventory
  import opened Reconfigure

  /** How the run ends: after the last row, on an error that escapes a row
      (an IndexError on a short row, or an error escaping `editVM`), or
      blocked in a wait that never returns. */
  datatype RunEnd = Completed | Crashed | Hung

  /** Row k was attempted: it has both fields, and `editVM` behaved on it as
      specified, with result `results[k]` and request `submissions[k]`. */
  ghost predicate RowsAttempted(inventory: seq<ManagedObject>, rows: seq<seq<string>>, remote: seq<Reconfiguration>,
                                results: seq<EditOutcome>, submissions: seq<Option<ConfigSpec>>)
  {
    && |results| == |submissions| <= |rows| <= |remote|
    && forall k :: 0 <= k < |results| ==>
         |rows[k]| >= 2 && EditBehaviour(inventory, rows[k][0], rows[k][1], remote[k], results[k], submissions[k])
  }

  lemma RowsAttemptedExtend(inventory: seq<ManagedObject>, rows: seq<seq<string>>, remote: seq<Reconfiguration>,
                            results: seq<EditOutcome>, submissions: seq<Option<ConfigSpec>>,
                            r: EditOutcome, s: Option<ConfigSpec>)
    requires RowsAttempted(inventory, rows, remote, results, submissions)
    requires |results| < |rows| <= |remote|
    requires |rows[|results|]| >= 2
    requires EditBehaviour(inventory, rows[|results|][0], rows[|results|][1], remote[|results|], r, s)
    ensures RowsAttempted(inventory, rows, remote, results + [r], submissions + [s])
  {
    var i := |results|;
    forall k | 0 <= k < i + 1
      ensures |rows[k]| >= 2 &&
              EditBehaviour(inventory, rows[k][0], rows[k][1], remote[k], (results + [r])[k], (submissions + [s])[k])
    {
      if k < i {
        assert (results + [r])[k] == results[k] && (submissions + [s])[k] == submissions[k];
      }
    }
  }

  method Migrate(inventory: seq<ManagedObject>, rows: seq<seq<string>>, remote: seq<Reconfiguration>)
    returns (results: seq<EditOutcome>, submissions: seq<Option<ConfigSpec>>, end: RunEnd, ghost leaked: int)
    requires |remote| == |rows|
    ensures RowsAttempted(inventory, rows, remote, results, submissions)
    ensures forall i :: 0 <= i < |results| - 1 ==> results[i].Returned?
    ensures end.Completed? ==> |results| == |rows|
    ensures end.Hung? <==> |results| > 0 && results[|results| - 1].Blocked?
    ensures end.Crashed? <==>
              || (|results| > 0 && results[|results| - 1].Aborted?)
              || ((|results| == 0 || results[|results| - 1].Returned?) && |results| < |rows| && |rows[|results|]| < 2)
    ensures leaked == if end.Hung? then 1 else 0
  {
    results, submissions, leaked := [], [], 0;
    var i := 0;
    while i < |rows|
      invariant 0 <= i <= |rows|
      invariant |results| == i
      invariant RowsAttempted(inventory, rows, remote, results, submissions)
      invariant forall k :: 0 <= k < i ==> results[k].Returned?
      invariant leaked == 0
    {
      var row := rows[i];
      if |row| < 2 {
        // row[0] or row[1] raises IndexError
        end := Crashed;
        return;
      }
      var r, submitted;
      ghost var created, destroyed;
      r, submitted, created, destroyed := EditVM(inventory, row[0], row[1], remote[i]);
      RowsAttemptedExtend(inventory, rows, remote, results, submissions, r, submitted);
      results, submissions := results + [r], submissions + [submitted];
      leaked := leaked + created - destroyed;
      if r.Aborted? {
        end := Crashed;
        return;
      }
      if r.Blocked? {
        end := Hung;
        return;
      }
      i := i + 1;
    }
    end := Completed;
  }
}
