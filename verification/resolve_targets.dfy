/**
 * The Doctrine "resolve target entity" table: interface or abstract class
 * names that the ORM listener redirects to a concrete entity class.
 */
module ResolveTargets {
  import opened Definitions

  type Table = map<ClassName, ClassName>

  predicate IsAddCall(call: MethodCall) {
    call.name == AddResolveTargetEntity
  }

  /** The array key `$call[1][0]`: a missing argument reads as PHP null, which keys as "". */
  function CallKey(call: MethodCall): string {
    if |call.args| > 0 then call.args[0] else ""
  }

  /** Call `i` is the last `addResolveTargetEntity` call for key `k`. */
  predicate IsLastAddFor(calls: seq<MethodCall>, i: int, k: ClassName) {
    && 0 <= i < |calls|
    && IsAddCall(calls[i]) && CallKey(calls[i]) == k
    && (forall j :: i < j < |calls| ==> !(IsAddCall(calls[j]) && CallKey(calls[j]) == k))
  }

  /**
   * The table built from the method calls, in call order. A call without a
   * second argument stores PHP null, which `isset` treats as absent, so it
   * removes the key.
   */
  function TableOf(calls: seq<MethodCall>): (t: Table)
    ensures forall k :: k in t ==> exists i :: 0 <= i < |calls| && IsAddCall(calls[i]) && CallKey(calls[i]) == k
    decreases |calls|
  {
    if |calls| == 0 then map[]
    else
      var prefix := calls[..|calls| - 1];
      var call := calls[|calls| - 1];
      var t := TableOf(prefix);
      assert forall i :: 0 <= i < |prefix| ==> prefix[i] == calls[i];
      if !IsAddCall(call) then t
      else if |call.args| >= 2 then t[call.args[0] := call.args[1]]
      else t - {CallKey(call)}
  }

  /** The table of the container: empty when there is no resolve-target listener definition. */
  function GetResolveTargets(c: Container): (t: Table)
    ensures ResolveTargetEntityId !in c.defs ==> t == map[]
    ensures ResolveTargetEntityId in c.defs ==>
      forall k :: k in t ==> exists call :: call in c.defs[ResolveTargetEntityId].calls && IsAddCall(call) && CallKey(call) == k
  {
    if ResolveTargetEntityId in c.defs then TableOf(c.defs[ResolveTargetEntityId].calls) else map[]
  }

  /** One redirection step: a mapped class is replaced by its target, any other class is kept. */
  function FindResolveTarget(table: Table, cls: ClassName): (r: ClassName)
    ensures r == cls || (cls in table && r == table[cls])
    ensures cls in table ==> r == table[cls]
  {
    if cls in table then table[cls] else cls
  }

  /**
   * The last `addResolveTargetEntity` call for a class decides its entry:
   * its target when it has one, no entry otherwise.
   */
  lemma {:induction false} TableOfLastCallWins(calls: seq<MethodCall>, i: int, k: ClassName)
    requires IsLastAddFor(calls, i, k)
    ensures |calls[i].args| >= 2 ==> k in TableOf(calls) && TableOf(calls)[k] == calls[i].args[1]
    ensures |calls[i].args| < 2 ==> k !in TableOf(calls)
    decreases |calls|
  {
    var prefix := calls[..|calls| - 1];
    assert forall j :: 0 <= j < |prefix| ==> prefix[j] == calls[j];
    if i < |calls| - 1 {
      assert IsLastAddFor(prefix, i, k);
      TableOfLastCallWins(prefix, i, k);
    }
  }

  /** A class named by no `addResolveTargetEntity` call has no entry, whatever other calls there are. */
  lemma {:induction false} TableOfOnlyAddCalls(calls: seq<MethodCall>, k: ClassName)
    requires forall i :: 0 <= i < |calls| ==> !(IsAddCall(calls[i]) && CallKey(calls[i]) == k)
    ensures k !in TableOf(calls)
    decreases |calls|
  {
    if |calls| > 0 {
      var prefix := calls[..|calls| - 1];
      assert forall j :: 0 <= j < |prefix| ==> prefix[j] == calls[j];
      TableOfOnlyAddCalls(prefix, k);
    }
  }

  /** Calls to other methods of the listener never change the table. */
  lemma {:induction false} TableOfIgnoresOtherCalls(calls: seq<MethodCall>, call: MethodCall)
    requires !IsAddCall(call)
    ensures TableOf(calls + [call]) == TableOf(calls)
  {
    assert (calls + [call])[..|calls + [call]| - 1] == calls;
  }

  /** The redirection of a class is the target of its last `addResolveTargetEntity` call. */
  lemma FindResolveTargetFollowsLastCall(calls: seq<MethodCall>, i: int, cls: ClassName)
    requires IsLastAddFor(calls, i, cls) && |calls[i].args| >= 2
    ensures FindResolveTarget(TableOf(calls), cls) == calls[i].args[1]
  {
    TableOfLastCallWins(calls, i, cls);
  }

  /** Redirection is a single step: a target that is itself mapped is not followed further. */
  lemma FindResolveTargetDoesNotChain()
    ensures
      var table := TableOf([MethodCall(AddResolveTargetEntity, ["A", "B"]), MethodCall(AddResolveTargetEntity, ["B", "C"])]);
      FindResolveTarget(table, "A") == "B" && FindResolveTarget(table, "B") == "C"
  {
  }
}
