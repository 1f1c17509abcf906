/**
 * The global variable store of the generated programs (runtimelib/GlobalVariables.cs): a
 * dictionary from variable names to list objects that creates an empty list the first time a
 * name is read.
 */
module RuntimeGlobals {

  /**
   * A Jam list value. Its contents and operations are not part of this model: the store only
   * keeps and hands out references, and a freshly constructed list stands for the empty list.
   */
  class JamList {
    constructor ()
    {
    }
  }

  /**
   * Reading `name` from the dictionary `values`: the stored list when there is one (a stored
   * null included), otherwise `created`, which is stored under `name`. The result is the new
   * dictionary and the list read.
   */
  function Vivify(values: map<string, JamList?>, name: string, created: JamList): (r: (map<string, JamList?>, JamList?))
    ensures name in values ==> r == (values, values[name])
    ensures name !in values ==> r.1 == created
    ensures r.0 == values[name := r.1]
  {
    if name in values then (values, values[name]) else (values[name := created], created)
  }

  /** After a read the name is bound to the list read; nothing else changes. */
  lemma VivifyFrame(values: map<string, JamList?>, name: string, created: JamList)
    ensures var (after, result) := Vivify(values, name, created);
            && name in after && after[name] == result
            && after.Keys == values.Keys + {name}
            && forall k | k in values && k != name :: after[k] == values[k]
  {
  }

  /** Two reads of one name give the same list, and the second changes nothing. */
  lemma {:induction false} VivifyTwice(values: map<string, JamList?>, name: string, created1: JamList, created2: JamList)
    ensures var (after1, result1) := Vivify(values, name, created1);
            Vivify(after1, name, created2) == (after1, result1)
  {
    var (after1, result1) := Vivify(values, name, created1);
    assert name in after1;
  }

  /** A read after a store gives the stored list, null included, and changes nothing. */
  lemma StoreThenVivify(values: map<string, JamList?>, name: string, v: JamList?, created: JamList)
    ensures Vivify(values[name := v], name, created) == (values[name := v], v)
  {
  }

  /** No name is bound to null. */
  ghost predicate NoNulls(values: map<string, JamList?>) {
    forall k | k in values :: values[k] != null
  }

  /**
   * A read never yields null unless a null was stored: from a store without nulls it gives a
   * list and leaves the store without nulls.
   */
  lemma VivifyNeverNull(values: map<string, JamList?>, name: string, created: JamList)
    requires NoNulls(values)
    ensures Vivify(values, name, created).1 != null && NoNulls(Vivify(values, name, created).0)
  {
  }

  /** Storing a list keeps the store without nulls; storing null under a name makes reads of it null. */
  lemma StoreNulls(values: map<string, JamList?>, name: string, v: JamList?, created: JamList)
    ensures NoNulls(values) && v != null ==> NoNulls(values[name := v])
    ensures v == null ==> Vivify(values[name := v], name, created).1 == null
  {
  }

  class GlobalVariables {
    /** `_values`. */
    var values: map<string, JamList?>

    constructor ()
      ensures values == map[]
    {
      values := map[];
    }

    /** `Get`: the stored list, or a fresh list stored under the name. Null only if null was stored. */
    method Get(myvar: string) returns (result: JamList?)
      modifies this
      ensures myvar in old(values) ==> (values, result) == (old(values), old(values)[myvar])
      ensures myvar !in old(values) ==>
                fresh(result) && result != null && (values, result) == Vivify(old(values), myvar, result)
      ensures NoNulls(old(values)) ==> result != null && NoNulls(values)
    {
      if myvar in values {
        return values[myvar];
      }
      result := new JamList();
      values := values[myvar := result];
    }

    /** The getter of the indexer: the same as `Get`. */
    method GetItem(variableName: string) returns (result: JamList?)
      modifies this
      ensures variableName in old(values) ==> (values, result) == (old(values), old(values)[variableName])
      ensures variableName !in old(values) ==>
                fresh(result) && result != null && (values, result) == Vivify(old(values), variableName, result)
      ensures NoNulls(old(values)) ==> result != null && NoNulls(values)
    {
      if variableName in values {
        return values[variableName];
      }
      result := new JamList();
      values := values[variableName := result];
    }

    /** The setter of the indexer: the name is bound to `value`, whatever it was bound to before. */
    method SetItem(variableName: string, value: JamList?)
      modifies this
      ensures values == old(values)[variableName := value]
    {
      values := values[variableName := value];
    }
  }
}
