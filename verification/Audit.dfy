/** src/audit/service.py: a row is added to the session and committed, or everything pending is
    rolled back and the failure swallowed. Rows keep the columns that the callers decide on. */
module Audit {
  import opened Wrappers

  datatype Action = Login | Logout | Refresh | PermissionCheck | RoleCheck

  datatype Result = Success | Failure | Granted | Denied

  datatype Row = Row(action: Action, result: Result, actor: Option<int>)

  /** Where, if anywhere, the database raises. */
  datatype Fault = NoFault | OnAdd | OnCommit

  function Count(rows: seq<Row>, action: Action, result: Result): nat {
    if rows == [] then 0
    else
      var last := rows[|rows| - 1];
      Count(rows[..|rows| - 1], action, result) + if last.action == action && last.result == result then 1 else 0
  }

  /** `a` is what is left of `b` after dropping some rows. */
  ghost predicate Subsequence(a: seq<Row>, b: seq<Row>) {
    if b == [] then a == []
    else
      var front, last := b[..|b| - 1], b[|b| - 1];
      Subsequence(a, front) || (a != [] && a[|a| - 1] == last && Subsequence(a[..|a| - 1], front))
  }

  lemma SubsequenceStep(a: seq<Row>, b: seq<Row>, row: Row)
    requires Subsequence(a, b)
    ensures Subsequence(a, b + [row]) && Subsequence(a + [row], b + [row])
  {
    assert (b + [row])[..|b|] == b && (a + [row])[..|a|] == a;
  }

  /** Dropping rows never raises a count, and drops nothing when the length stays. */
  lemma {:induction false} SubsequenceCounts(a: seq<Row>, b: seq<Row>, action: Action, result: Result)
    requires Subsequence(a, b)
    ensures |a| <= |b| && (|a| == |b| ==> a == b)
    ensures Count(a, action, result) <= Count(b, action, result)
  {
    if b != [] {
      var front := b[..|b| - 1];
      if Subsequence(a, front) {
        SubsequenceCounts(a, front, action, result);
      } else {
        SubsequenceCounts(a[..|a| - 1], front, action, result);
        assert b == front + [b[|b| - 1]];
        assert a == a[..|a| - 1] + [a[|a| - 1]];
      }
    }
  }

  /** The table after a call that logs `row` under `fault`. */
  function Stored(committed: seq<Row>, pending: seq<Row>, row: Row, fault: Fault): seq<Row> {
    if !fault.NoFault? then committed
    else if pending == [] then committed + [row]
    else committed + pending + [row]
  }

  class AuditService {
    /** The session: rows added and not yet committed, and the table. */
    var pending: seq<Row>
    var committed: seq<Row>
    /** Every row `log` was called with. */
    ghost var calls: seq<Row>

    /** The table holds logged rows, in the order in which they were logged. */
    ghost predicate Kept()
      reads this
    {
      pending == [] && Subsequence(committed, calls)
    }

    constructor ()
      ensures pending == [] && committed == [] && calls == []
    {
      pending, committed, calls := [], [], [];
    }

    method Log(row: Row, fault: Fault)
      modifies this
      ensures calls == old(calls) + [row]
      ensures pending == []
      ensures !fault.NoFault? ==> committed == old(committed)
      ensures fault.NoFault? && old(pending) == [] ==> committed == old(committed) + [row]
      ensures fault.NoFault? && old(pending) != [] ==> committed == old(committed) + old(pending) + [row]
      ensures old(Kept()) ==> Kept()
    {
      if Subsequence(committed, calls) { SubsequenceStep(committed, calls, row); }
      calls := calls + [row];
      if fault.OnAdd? {
        pending := [];
        return;
      }
      pending := pending + [row];
      if fault.OnCommit? {
        pending := [];
        return;
      }
      assert pending == [row] + [] ==> committed + pending == committed + [row];
      committed := committed + pending;
      pending := [];
    }
  }
}
