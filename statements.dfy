/**
  The growable statement array of statements.c (`stmt_arr`).

  The array's length is its capacity `cap`; `len` counts the statements in
  use. Growth is the capacity doubling of doubling_array.h.
*/
module Statements {
  import opened Ast
  import DoublingArray

  const INITIAL_CAP: nat := 10

  class StmtArr {
    var stmts: array<Stmt>
    var len: nat

    /** `stmt_arr_ASSERT` without its `cap > 0` part, which only a freed array breaks. */
    ghost predicate Valid()
      reads this
    {
      len <= stmts.Length
    }

    ghost function Contents(): seq<Stmt>
      reads this, stmts
      requires Valid()
    {
      stmts[..len]
    }

    /** `stmt_arr_create`: no statements, capacity 10. */
    constructor ()
      ensures Valid() && fresh(stmts)
      ensures len == 0 && stmts.Length == INITIAL_CAP
      ensures Contents() == []
    {
      stmts := new Stmt[INITIAL_CAP];
      len := 0;
    }

    /** `stmt_arr_push`: grow if full, then store `st` at index `len`. */
    method Push(st: Stmt)
      requires Valid() && stmts.Length > 0
      modifies this, stmts
      ensures Valid() && stmts.Length > 0
      ensures len == old(len) + 1
      ensures stmts.Length == DoublingArray.GrownCap(old(stmts.Length), old(len) + 1)
      ensures Contents() == old(Contents()) + [st]
      ensures stmts == old(stmts) || fresh(stmts)
    {
      stmts := DoublingArray.MakeAvailable(stmts, len + 1);
      stmts[len] := st;
      len := len + 1;
    }

    /** `stmt_arr_free`: releases the storage; length and capacity become 0. */
    method Free()
      requires Valid() && stmts.Length > 0
      modifies this
      ensures Valid() && len == 0 && stmts.Length == 0
    {
      stmts := new Stmt[0];
      len := 0;
    }
  }
}
