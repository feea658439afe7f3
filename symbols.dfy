// The symbol table (Common/Internals.h, class symbol_table, and
// HelloDll/Hello_compiler.cpp, symbol_table::insert / at): a map from
// variable name to alt-stack slot, privately inherited, plus the vector of
// names by slot.  Asserts are active, so a failed one is an Abort.

module Symbols {

  import opened Wrappers
  import opened Internals

  /** The table's two containers as values. */
  datatype Table = Table(slots: map<string, nat>, names: seq<string>)
  {
    /** The layout insert maintains: the map and the vector have the same
        size, and every slot is an index into the vector. */
    predicate Consistent()
    {
      && |slots| == |names|
      && forall n {:trigger slots[n]} :: n in slots ==> slots[n] < |names|
    }

    /** Every name's slot holds that name in the vector. */
    predicate Indexed()
    {
      forall n {:trigger names[slots[n]]} :: n in slots ==> slots[n] < |names| && names[slots[n]] == n
    }
  }

  const EmptyTable: Table := Table(map[], [])

  /** symbol_table::insert: map::insert(name, map::size()), assert that it
      took place, push the name, assert the two sizes agree, and return the
      new vector size minus one. */
  function InsertName(t: Table, name: string): Result<(Table, nat), Failure>
  {
    if name in t.slots then Err(Abort("symbol_table::insert: name already present"))
    else
      var t' := Table(t.slots[name := |t.slots|], t.names + [name]);
      var idx: nat := |t.names|;
      if |t'.slots| != |t'.names| then Err(Abort("symbol_table::insert: sizes disagree"))
      else Ok((t', idx))
  }

  /** symbol_table::at: asserts the sizes agree, then vector::at, which
      throws std::out_of_range past the end. */
  function NameAt(t: Table, idx: nat): Result<string, Failure>
  {
    if |t.slots| != |t.names| then Err(Abort("symbol_table::at: sizes disagree"))
    else if idx >= |t.names| then Err(OutOfRange)
    else Ok(t.names[idx])
  }

  /** Inserting a name the table lacks returns the previous size, after
      which at() of that index is the name, the sizes still agree and
      every other name keeps its slot. */
  lemma InsertFresh(t: Table, name: string)
    requires t.Consistent() && name !in t.slots
    ensures InsertName(t, name).Ok?
    ensures var (t', idx) := InsertName(t, name).value;
      && idx == |t.names| && idx == |t.slots|
      && NameAt(t', idx) == Ok(name)
      && t'.Consistent()
      && (t.Indexed() ==> t'.Indexed())
      && t'.slots == t.slots[name := idx]
      && t'.names[..idx] == t.names
  {
    var t' := Table(t.slots[name := |t.slots|], t.names + [name]);
    assert |t'.slots| == |t.slots| + 1;
    forall n | n in t'.slots
      ensures t'.slots[n] < |t'.names|
      ensures t.Indexed() ==> t'.names[t'.slots[n]] == n
    {
      if n != name {
        assert n in t.slots && t'.slots[n] == t.slots[n];
      }
    }
  }

  /** A name already in the table cannot be inserted again: the assert on
      map::insert's second result fails. */
  lemma InsertPresentAborts(t: Table, name: string)
    requires name in t.slots
    ensures InsertName(t, name).Err? && InsertName(t, name).error.Abort?
  {
  }

  /** Consistency survives every successful insert. */
  lemma InsertKeepsConsistent(t: Table, name: string)
    requires t.Consistent() && t.Indexed()
    ensures InsertName(t, name).Ok? ==> InsertName(t, name).value.0.Consistent()
    ensures InsertName(t, name).Ok? ==> InsertName(t, name).value.0.Indexed()
  {
    if name !in t.slots {
      InsertFresh(t, name);
    }
  }

  /** executable::reset as written: symbol_table re-exports only the map's
      clear(), so variable_names survives. */
  function ClearedAsWritten(t: Table): Table
  {
    Table(map[], t.names)
  }

  /** The reset the layout needs: both containers emptied. */
  function Cleared(t: Table): (r: Table)
    ensures r.Consistent() && r.Indexed() && r.slots == map[] && r.names == []
  {
    EmptyTable
  }

  /** After the as-written reset of a table that held any variable, the
      very next insert fails its size assertion. */
  lemma ClearAsWrittenBreaksInsert(t: Table, name: string)
    requires |t.names| > 0
    ensures !ClearedAsWritten(t).Consistent()
    ensures InsertName(ClearedAsWritten(t), name) == Err(Abort("symbol_table::insert: sizes disagree"))
  {
    assert |map[name := 0]| == 1;
  }

  /** After the corrected reset the first insert takes slot 0. */
  lemma ClearThenInsert(t: Table, name: string)
    ensures InsertName(Cleared(t), name) == Ok((Table(map[name := 0], [name]), 0))
  {
    assert |map[name := 0]| == 1;
    assert map[][name := 0] == map[name := 0];
    assert [] + [name] == [name];
  }

  /** symbol_table. */
  class SymbolTable {
    var slots: map<string, nat>
    var names: seq<string>

    function View(): Table
      reads this
    {
      Table(slots, names)
    }

    constructor()
      ensures View() == EmptyTable
    {
      slots := map[];
      names := [];
    }

    /** map::size */
    function Size(): (n: nat)
      reads this
      ensures n == |View().slots|
    {
      |slots|
    }

    method Insert(name: string) returns (r: Result<nat, Failure>)
      modifies this
      ensures InsertName(old(View()), name).Ok? ==>
                r == Ok(InsertName(old(View()), name).value.1)
                && View() == InsertName(old(View()), name).value.0
      ensures InsertName(old(View()), name).Err? ==> r == Err(InsertName(old(View()), name).error)
    {
      if name in slots {
        return Err(Abort("symbol_table::insert: name already present"));
      }
      slots := slots[name := |slots|];
      names := names + [name];
      if |slots| != |names| {
        return Err(Abort("symbol_table::insert: sizes disagree"));
      }
      return Ok(|names| - 1);
    }

    method At(idx: nat) returns (r: Result<string, Failure>)
      ensures r == NameAt(View(), idx)
    {
      if |slots| != |names| {
        return Err(Abort("symbol_table::at: sizes disagree"));
      }
      if idx >= |names| {
        return Err(OutOfRange);
      }
      return Ok(names[idx]);
    }

    /** The `clear` that executable::reset reaches: the map's own. */
    method Clear()
      modifies this
      ensures View() == ClearedAsWritten(old(View()))
    {
      slots := map[];
    }

    /** Empties both containers, as the table's layout requires. */
    method Reset()
      modifies this
      ensures View() == Cleared(old(View()))
    {
      slots := map[];
      names := [];
    }
  }
}
