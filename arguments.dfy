/**
 * The argument list of a function entity: a vector of sub-trees kept in
 * insertion order, grown at the end and shrunk from the end.
 */
module Arguments {
  import opened Errors
  import opened Entities

  /** GetArgumentsLength: the number of arguments. */
  function GetArgumentsLength(e: Entity): (n: nat)
    requires e.Function?
    ensures n == |e.args|
  {
    |e.args|
  }

  /** HasArguments: the list is not empty. */
  function HasArguments(e: Entity): (b: bool)
    requires e.Function?
    ensures b <==> GetArgumentsLength(e) > 0
  {
    e.args != []
  }

  /** AddArgument: push_back. */
  function AddArgument(e: Entity, a: Entity): (r: Entity)
    requires e.Function?
    ensures r.Function? && r.value == e.value && r.negative == e.negative
    ensures GetArgumentsLength(r) == GetArgumentsLength(e) + 1
    ensures r.args[..|e.args|] == e.args && r.args[|e.args|] == a
  {
    e.(args := e.args + [a])
  }

  /**
   * PopArgument: the last argument and the entity without it; on an empty
   * list `at(size() - 1)` throws out_of_range.
   */
  function PopArgument(e: Entity): (r: Result<(Entity, Entity)>)
    requires e.Function?
    ensures r.Err? <==> !HasArguments(e)
    ensures r.Err? ==> r.error == OutOfRange
    ensures r.Ok? ==> r.value.0 == e.args[|e.args| - 1]
    ensures r.Ok? ==> r.value.1.Function? && r.value.1.value == e.value && r.value.1.negative == e.negative
                      && r.value.1.args == e.args[..|e.args| - 1]
  {
    if e.args == [] then Err(OutOfRange)
    else Ok((e.args[|e.args| - 1], e.(args := e.args[..|e.args| - 1])))
  }

  /** Popping right after adding gives back the added argument and the entity as it was. */
  lemma PopAfterAdd(e: Entity, a: Entity)
    requires e.Function?
    ensures PopArgument(AddArgument(e, a)) == Ok((a, e))
  {
    assert (e.args + [a])[..|e.args|] == e.args;
  }

  /** GetArguments: a copy of the arguments, built element by element in insertion order. */
  method GetArguments(e: Entity) returns (ret: seq<Entity>)
    requires e.Function?
    ensures ret == e.args
  {
    ret := [];
    var i := 0;
    while i < |e.args|
      invariant 0 <= i <= |e.args|
      invariant ret == e.args[..i]
    {
      ret := ret + [e.args[i]];
      i := i + 1;
    }
  }

  /** ClearArguments: pop until the list is empty. */
  method ClearArguments(e: Entity) returns (r: Entity)
    requires e.Function?
    ensures r.Function? && r.value == e.value && r.negative == e.negative
    ensures r.args == [] && !HasArguments(r)
  {
    r := e;
    while HasArguments(r)
      invariant r.Function? && r.value == e.value && r.negative == e.negative
      decreases |r.args|
    {
      var popped := PopArgument(r);
      r := popped.value.1;
    }
  }
}
