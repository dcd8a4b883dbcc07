/**
  The variable environment of var_env.h: a thin layer over the value
  hashtable. Looking up a name that was never defined is the runtime error
  "Undefined variable"; its message goes to standard error, which is not
  modelled, and the result is `None` (the C NULL).
*/
module Environment {
  import opened Wrappers
  import Values
  import Hashtable
  import Memory

  /** `var_env`: the hashtable of values. */
  class VarEnv {
    var values: Hashtable.ValueHashtable

    ghost predicate Valid()
      reads this, values, values.table, values.mem
    {
      values.Valid()
    }

    /** The value `var_env_get` returns for `ident`, `None` when it reports the error. */
    ghost function Binding(ident: string): Option<Values.Value>
      reads this, values, values.table
      requires values.table.Length == Hashtable.TABLE_SIZE
    {
      values.Lookup(ident)
    }

    /** `var_env_create`: no name is bound. */
    constructor ()
      ensures Valid() && fresh(values) && fresh(values.table) && fresh(values.mem)
      ensures forall x :: Binding(x) == None
    {
      values := new Hashtable.ValueHashtable();
    }

    /** `var_env_define`: bind `ident` to `v`, replacing an earlier binding; other names keep theirs. */
    method Define(ident: string, v: Values.Value)
      requires Valid() && Values.CText(ident)
      requires values.mem.len + Hashtable.ENTRY_SIZE < Memory.SIZE_BOUND
      modifies values.table, values.mem
      ensures Valid()
      ensures values.mem.len == old(values.mem.len) + Hashtable.ENTRY_SIZE
      ensures Binding(ident) == Some(v)
      ensures forall x :: x != ident ==> Binding(x) == old(Binding(x))
    {
      ghost var chain := values.table[Hashtable.Bucket(ident)];
      values.Insert(ident, v);
      Hashtable.InsertThenLookup(chain, ident, v, ident);
      forall x | x != ident
        ensures Binding(x) == old(Binding(x))
      {
        if Hashtable.Bucket(x) == Hashtable.Bucket(ident) {
          Hashtable.InsertThenLookup(chain, ident, v, x);
        }
      }
    }

    /** `var_env_get`: the bound value, or `None` after reporting an undefined variable. */
    method Get(ident: string) returns (r: Option<Values.Value>)
      requires Valid() && Values.CText(ident)
      ensures r == Binding(ident)
    {
      r := values.Get(ident);
    }
  }

  /** Defining `x` twice and reading it back gives the second value. */
  method RedefineThenGet(env: VarEnv, x: string, v1: Values.Value, v2: Values.Value) returns (r: Option<Values.Value>)
    requires env.Valid() && Values.CText(x)
    requires env.values.mem.len + 2 * Hashtable.ENTRY_SIZE < Memory.SIZE_BOUND
    modifies env.values.table, env.values.mem
    ensures env.Valid() && r == Some(v2)
  {
    env.Define(x, v1);
    env.Define(x, v2);
    r := env.Get(x);
  }

  /** In a fresh environment every name is undefined. */
  method FreshGet(x: string) returns (r: Option<Values.Value>)
    requires Values.CText(x)
    ensures r == None
  {
    var env := new VarEnv();
    r := env.Get(x);
  }
}
