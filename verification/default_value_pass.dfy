/**
 * The compiler pass: for each of the two tags, resolve the class of every
 * tagged service, rewrite the service for that class, and write the
 * class-keyed registry into the aggregating service's arguments.
 */
module DefaultValuePass {
  import opened Wrappers
  import opened Definitions
  import opened ResolveTargets
  import opened ClassNames
  import opened Rewrite
  import opened Registry

  /** The pass changes no id, parameter or definition set, and no class, call list or argument count. */
  predicate SameShape(c: Container, d: Container) {
    && d.ids == c.ids && d.params == c.params && d.defs.Keys == c.defs.Keys
    && (forall id :: id in c.defs ==>
          && d.defs[id].className == c.defs[id].className
          && d.defs[id].calls == c.defs[id].calls
          && |d.defs[id].args| == |c.defs[id].args|)
  }

  /** Arguments that are not strings are never rewritten. */
  predicate KeepsNonStringArgs(c: Container, d: Container)
    requires SameShape(c, d)
  {
    forall id, j :: id in c.defs && 0 <= j < |c.defs[id].args| && !c.defs[id].args[j].Str? ==>
      d.defs[id].args[j] == c.defs[id].args[j]
  }

  /** One service of the container rewritten for its resolved class. */
  function RewriteService(c: Container, table: Table, name: TagName, id: ServiceId, cls: ClassName): (r: Container)
    requires id in c.defs
    ensures r.ids == c.ids && r.params == c.params && r.defs.Keys == c.defs.Keys
    ensures r.defs[id] == RewriteDefinition(c.defs[id], table, name, cls)
    ensures forall other :: other in c.defs && other != id ==> r.defs[other] == c.defs[other]
  {
    c.(defs := c.defs[id := RewriteDefinition(c.defs[id], table, name, cls)])
  }

  /** The class one tagged service registers under, after redirection, or the error it raises. */
  function EntryOutcome(c: Container, refl: Reflection, table: Table, name: TagName, e: Tagged): (r: Result<ClassName, PassError>)
    ensures e.id !in c.defs ==> r == Err(ServiceNotFound(e.id))
    ensures e.id in c.defs ==>
      var found := TagClass(c.params, refl, name, e.id, c.defs[e.id], e.tag);
      && (r.Ok? <==> found.Ok?)
      && (r.Err? ==> r.error == found.error)
      && (r.Ok? && found.value in table ==> r.value == table[found.value])
      && (r.Ok? && found.value !in table ==> r.value == found.value)
  {
    if e.id !in c.defs then Err(ServiceNotFound(e.id))
    else
      var found :- TagClass(c.params, refl, name, e.id, c.defs[e.id], e.tag);
      Ok(FindResolveTarget(table, found))
  }

  /**
   * The body of the loop of `findTags`, over the services in lookup order:
   * resolve the class, rewrite the service, collect (id, class). The first
   * error aborts.
   */
  function ProcessServices(c: Container, refl: Reflection, table: Table, name: TagName, entries: seq<Tagged>): (r: Result<(Container, seq<Resolved>), PassError>)
    ensures r.Ok? ==> SameShape(c, r.value.0) && KeepsNonStringArgs(c, r.value.0)
    ensures r.Ok? ==> forall id :: id in c.defs && id !in EntryIds(entries) ==> r.value.0.defs[id] == c.defs[id]
    ensures r.Ok? ==> |r.value.1| == |entries| && forall i :: 0 <= i < |entries| ==> r.value.1[i].id == entries[i].id
    decreases |entries|
  {
    if |entries| == 0 then Ok((c, []))
    else
      var e := entries[0];
      var outcome := EntryOutcome(c, refl, table, name, e);
      if outcome.Err? then Err(outcome.error)
      else
        var next := RewriteService(c, table, name, e.id, outcome.value);
        var rest := ProcessServices(next, refl, table, name, entries[1..]);
        if rest.Err? then
          assert forall i :: 0 <= i < |entries[1..]| ==> entries[1..][i] == entries[i + 1];
          Err(rest.error)
        else
          assert EntryIds(entries) == [e.id] + EntryIds(entries[1..]);
          Ok((rest.value.0, [Resolved(e.id, outcome.value)] + rest.value.1))
  }

  /** A service that exists raises only the errors of class resolution. */
  lemma EntryOutcomeError(c: Container, refl: Reflection, table: Table, name: TagName, e: Tagged)
    requires e.id in c.defs && EntryOutcome(c, refl, table, name, e).Err?
    ensures !EntryOutcome(c, refl, table, name, e).error.ServiceNotFound?
  {
  }

  /** The loop only raises service-not-found for a service missing from the container. */
  lemma {:induction false} ProcessServicesFindsServices(c: Container, refl: Reflection, table: Table, name: TagName, entries: seq<Tagged>)
    requires forall i :: 0 <= i < |entries| ==> entries[i].id in c.defs
    requires ProcessServices(c, refl, table, name, entries).Err?
    ensures !ProcessServices(c, refl, table, name, entries).error.ServiceNotFound?
    decreases |entries|
  {
    var e := entries[0];
    var outcome := EntryOutcome(c, refl, table, name, e);
    if outcome.Err? {
      EntryOutcomeError(c, refl, table, name, e);
    } else {
      var next := RewriteService(c, table, name, e.id, outcome.value);
      assert forall i :: 0 <= i < |entries[1..]| ==> entries[1..][i] == entries[i + 1];
      ProcessServicesFindsServices(next, refl, table, name, entries[1..]);
    }
  }

  /** The registry for one tag: class => last id for types, class => ids for extensions. */
  function Registration(pairs: seq<Resolved>, ext: bool): (r: Arg)
    ensures ext ==> r.IdListMap? && r.byClasses.Keys == Classes(pairs)
    ensures ext ==> forall cls :: cls in r.byClasses ==> r.byClasses[cls] == IdsWithClass(pairs, cls)
    ensures !ext ==> r.IdMap? && r.byClass.Keys == Classes(pairs)
    ensures !ext ==> forall cls :: cls in r.byClass ==>
      |IdsWithClass(pairs, cls)| > 0 && r.byClass[cls] == IdsWithClass(pairs, cls)[|IdsWithClass(pairs, cls)| - 1]
  {
    if ext then
      forall cls | cls in IdsByClass(pairs) ensures IdsByClass(pairs)[cls] == IdsWithClass(pairs, cls) {
        IdsByClassIsComplete(pairs, cls);
      }
      IdListMap(IdsByClass(pairs))
    else
      forall cls | cls in LastIdByClass(pairs)
        ensures |IdsWithClass(pairs, cls)| > 0 && LastIdByClass(pairs)[cls] == IdsWithClass(pairs, cls)[|IdsWithClass(pairs, cls)| - 1]
      {
        LastIdByClassIsLast(pairs, cls);
      }
      IdMap(LastIdByClass(pairs))
  }

  /**
   * `findTags`: process every service carrying tag `name`, then write the
   * registry into argument `position` of the aggregating service.
   */
  function FindTags(c: Container, refl: Reflection, table: Table, name: TagName, position: nat, ext: bool): (r: Result<Container, PassError>)
    ensures ExtensionId !in c.defs ==> r.Err?
    ensures r.Ok? ==> ExtensionId in c.defs && SameShape(c, r.value)
    ensures r.Ok? ==>
      var args := r.value.defs[ExtensionId].args;
      && position < |args|
      && (if ext then args[position].IdListMap? else args[position].IdMap?)
      && (forall j :: 0 <= j < |args| && j != position && !c.defs[ExtensionId].args[j].Str? ==> args[j] == c.defs[ExtensionId].args[j])
    ensures r.Ok? ==> forall id :: id in c.defs && id != ExtensionId && !HasTag(c.defs[id], name) ==> r.value.defs[id] == c.defs[id]
    ensures r.Ok? && !HasTag(c.defs[ExtensionId], name) ==>
      var before, after := c.defs[ExtensionId], r.value.defs[ExtensionId];
      && after.tags == before.tags
      && (forall j :: 0 <= j < |after.args| && j != position ==> after.args[j] == before.args[j])
    ensures ExtensionId in c.defs && r.Err? ==> !r.error.ServiceNotFound?
  {
    var entries := TaggedServices(c, name);
    var processed := ProcessServices(c, refl, table, name, entries);
    if processed.Err? then
      ProcessServicesFindsServices(c, refl, table, name, entries);
      Err(processed.error)
    else
      var done := processed.value;
      ReplaceArgument(done.0, ExtensionId, position, Registration(done.1, ext))
  }

  /** Neither tag is carried by the aggregating service itself. */
  predicate ExtensionUntagged(c: Container) {
    ExtensionId in c.defs ==> !HasTag(c.defs[ExtensionId], TypeTag) && !HasTag(c.defs[ExtensionId], TypeExtensionTag)
  }

  /**
   * `process`: nothing to do without the aggregating service; otherwise
   * register the types in argument 0, then the type extensions in
   * argument 1. The resolve-target table is computed once for both.
   */
  function Process(c: Container, refl: Reflection): (r: Result<Container, PassError>)
    ensures ExtensionId !in c.defs ==> r == Ok(c)
    ensures r.Ok? ==> SameShape(c, r.value)
    ensures r.Ok? ==> GetResolveTargets(r.value) == GetResolveTargets(c)
    ensures r.Err? ==> !r.error.ServiceNotFound?
    ensures r.Ok? && ExtensionId in c.defs ==>
      var args := r.value.defs[ExtensionId].args;
      |args| >= 2 && args[0].IdMap? && args[1].IdListMap?
    ensures r.Ok? && ExtensionId in c.defs && ExtensionUntagged(c) ==>
      var before, after := c.defs[ExtensionId], r.value.defs[ExtensionId];
      && after.tags == before.tags
      && (forall j :: 2 <= j < |after.args| ==> after.args[j] == before.args[j])
    ensures r.Ok? ==> forall id :: id in c.defs && id != ExtensionId && !HasTag(c.defs[id], TypeTag) && !HasTag(c.defs[id], TypeExtensionTag) ==>
      r.value.defs[id] == c.defs[id]
  {
    if ExtensionId !in c.defs then Ok(c)
    else
      var table := GetResolveTargets(c);
      var afterTypes :- FindTags(c, refl, table, TypeTag, 0, false);
      var r := FindTags(afterTypes, refl, table, TypeExtensionTag, 1, true);
      if r.Ok? then SameShapeComposes(c, afterTypes, r.value); r else r
  }

  /** Two passes that each keep the shape keep it together, and keep the resolve-target table. */
  lemma SameShapeComposes(a: Container, b: Container, c: Container)
    requires SameShape(a, b) && SameShape(b, c)
    ensures SameShape(a, c)
    ensures GetResolveTargets(c) == GetResolveTargets(a)
  {
  }

  /** The pass keeps a container well-formed. */
  lemma SameShapeKeepsValid(c: Container, d: Container)
    requires Valid(c) && SameShape(c, d)
    ensures Valid(d)
  {
  }

  /**
   * `process` on a well-formed container: argument 0 of the aggregating
   * service holds the type registry of the services tagged as types, each
   * resolved against the container as given.
   */
  lemma ProcessRegistersTypes(c: Container, refl: Reflection)
    requires Valid(c)
    ensures var out := Process(c, refl);
      ExtensionId in c.defs && out.Ok? ==>
        var types := ResolveEach(c, refl, GetResolveTargets(c), TypeTag, TaggedServices(c, TypeTag));
        && types.Ok?
        && ExtensionId in out.value.defs && 0 < |out.value.defs[ExtensionId].args|
        && out.value.defs[ExtensionId].args[0] == Registration(types.value, false)
  {
    if ExtensionId in c.defs && Process(c, refl).Ok? {
      var table := GetResolveTargets(c);
      FindTagsRegistersEveryService(c, refl, table, TypeTag, 0, false);
      var afterTypes := FindTags(c, refl, table, TypeTag, 0, false).value;
      var out := FindTags(afterTypes, refl, table, TypeExtensionTag, 1, true).value;
      assert Process(c, refl) == Ok(out);
      assert out.defs[ExtensionId].args[0] == afterTypes.defs[ExtensionId].args[0];
    }
  }

  /**
   * `process` on a well-formed container: argument 1 of the aggregating
   * service holds the extension registry of the services tagged as type
   * extensions, resolved in the container the type step left behind.
   */
  lemma ProcessRegistersExtensions(c: Container, refl: Reflection)
    requires Valid(c)
    ensures var out := Process(c, refl);
      ExtensionId in c.defs && out.Ok? ==>
        var table := GetResolveTargets(c);
        var afterTypes := FindTags(c, refl, table, TypeTag, 0, false);
        && afterTypes.Ok?
        && var exts := ResolveEach(afterTypes.value, refl, table, TypeExtensionTag, TaggedServices(afterTypes.value, TypeExtensionTag));
        && exts.Ok?
        && ExtensionId in out.value.defs && 1 < |out.value.defs[ExtensionId].args|
        && out.value.defs[ExtensionId].args[1] == Registration(exts.value, true)
  {
    if ExtensionId in c.defs && Process(c, refl).Ok? {
      var table := GetResolveTargets(c);
      var afterTypes := FindTags(c, refl, table, TypeTag, 0, false).value;
      SameShapeKeepsValid(c, afterTypes);
      FindTagsRegistersEveryService(afterTypes, refl, table, TypeExtensionTag, 1, true);
    }
  }

  /**
   * Reference reading of the loop: every service's class resolved against
   * the container as it was before the pass. The first error in lookup order
   * is the one reported.
   */
  function ResolveEach(c: Container, refl: Reflection, table: Table, name: TagName, entries: seq<Tagged>): (r: Result<seq<Resolved>, PassError>)
    ensures r.Ok? <==> forall i :: 0 <= i < |entries| ==> EntryOutcome(c, refl, table, name, entries[i]).Ok?
    ensures r.Ok? ==> |r.value| == |entries|
    ensures r.Ok? ==> forall i :: 0 <= i < |entries| ==>
      r.value[i] == Resolved(entries[i].id, EntryOutcome(c, refl, table, name, entries[i]).value)
    ensures r.Err? ==> exists i :: (0 <= i < |entries| && EntryOutcome(c, refl, table, name, entries[i]) == Err(r.error)
      && forall j :: 0 <= j < i ==> EntryOutcome(c, refl, table, name, entries[j]).Ok?)
    decreases |entries|
  {
    if |entries| == 0 then Ok([])
    else
      var outcome := EntryOutcome(c, refl, table, name, entries[0]);
      var rest := ResolveEach(c, refl, table, name, entries[1..]);
      assert forall i :: 0 <= i < |entries[1..]| ==> entries[1..][i] == entries[i + 1];
      if outcome.Err? then Err(outcome.error)
      else if rest.Err? then
        ghost var i :| 0 <= i < |entries[1..]| && EntryOutcome(c, refl, table, name, entries[1..][i]) == Err(rest.error)
          && forall j :: 0 <= j < i ==> EntryOutcome(c, refl, table, name, entries[1..][j]).Ok?;
        assert EntryOutcome(c, refl, table, name, entries[i + 1]) == Err(rest.error);
        Err(rest.error)
      else Ok([Resolved(entries[0].id, outcome.value)] + rest.value)
  }

  /** The class resolved for service `id`, if it is among `pairs`. */
  function ClassFor(pairs: seq<Resolved>, id: ServiceId): Option<ClassName> {
    if |pairs| == 0 then None
    else if pairs[0].id == id then Some(pairs[0].className)
    else ClassFor(pairs[1..], id)
  }

  /** Reference reading of the rewrites: each resolved service rewritten for its class, all at once. */
  function RewriteAll(c: Container, table: Table, name: TagName, pairs: seq<Resolved>): Container {
    c.(defs := map id | id in c.defs ::
      if ClassFor(pairs, id).Some? then RewriteDefinition(c.defs[id], table, name, ClassFor(pairs, id).value)
      else c.defs[id])
  }

  lemma {:induction false} ClassForAbsent(pairs: seq<Resolved>, id: ServiceId)
    requires forall i :: 0 <= i < |pairs| ==> pairs[i].id != id
    ensures ClassFor(pairs, id) == None
    decreases |pairs|
  {
    if |pairs| > 0 {
      ClassForAbsent(pairs[1..], id);
    }
  }

  /** Resolution reads only the parameters and the definitions of the listed services. */
  lemma {:induction false} ResolveEachFrame(c: Container, d: Container, refl: Reflection, table: Table, name: TagName, entries: seq<Tagged>)
    requires d.params == c.params
    requires forall i :: 0 <= i < |entries| ==>
      (entries[i].id in c.defs <==> entries[i].id in d.defs)
      && (entries[i].id in c.defs ==> d.defs[entries[i].id] == c.defs[entries[i].id])
    ensures ResolveEach(d, refl, table, name, entries) == ResolveEach(c, refl, table, name, entries)
    decreases |entries|
  {
    if |entries| > 0 {
      assert forall i :: 0 <= i < |entries[1..]| ==> entries[1..][i] == entries[i + 1];
      ResolveEachFrame(c, d, refl, table, name, entries[1..]);
      assert EntryOutcome(d, refl, table, name, entries[0]) == EntryOutcome(c, refl, table, name, entries[0]);
    }
  }

  lemma DistinctTail(entries: seq<Tagged>)
    requires |entries| > 0 && Distinct(EntryIds(entries))
    ensures Distinct(EntryIds(entries[1..]))
    ensures forall i :: 0 <= i < |entries[1..]| ==> entries[1..][i].id != entries[0].id
  {
    var rest := entries[1..];
    forall i | 0 <= i < |rest| ensures rest[i].id != entries[0].id {
      assert EntryIds(entries)[0] == entries[0].id && EntryIds(entries)[i + 1] == rest[i].id;
    }
    forall i, j | 0 <= i < j < |rest| ensures EntryIds(rest)[i] != EntryIds(rest)[j] {
      assert EntryIds(entries)[i + 1] != EntryIds(entries)[j + 1];
    }
  }

  /** Rewriting one service first and the others later is rewriting all of them at once. */
  lemma RewriteAllCons(c: Container, table: Table, name: TagName, id: ServiceId, cls: ClassName, pairs: seq<Resolved>)
    requires id in c.defs && ClassFor(pairs, id) == None
    ensures RewriteAll(RewriteService(c, table, name, id, cls), table, name, pairs) == RewriteAll(c, table, name, [Resolved(id, cls)] + pairs)
  {
    var full := [Resolved(id, cls)] + pairs;
    assert full[1..] == pairs;
    var lhs := RewriteAll(RewriteService(c, table, name, id, cls), table, name, pairs);
    var rhs := RewriteAll(c, table, name, full);
    forall other | other in c.defs ensures lhs.defs[other] == rhs.defs[other] {
      if other != id {
        assert ClassFor(full, other) == ClassFor(pairs, other);
      }
    }
    assert lhs.defs == rhs.defs;
  }

  /**
   * Rewriting services one by one while resolving them is the same as
   * resolving all of them against the original container and then
   * rewriting: on distinct services, no rewrite affects a later resolution.
   */
  lemma {:induction false} ProcessServicesDecoupled(c: Container, refl: Reflection, table: Table, name: TagName, entries: seq<Tagged>)
    requires Distinct(EntryIds(entries))
    ensures var resolved := ResolveEach(c, refl, table, name, entries);
      && (resolved.Err? ==> ProcessServices(c, refl, table, name, entries) == Err(resolved.error))
      && (resolved.Ok? ==> ProcessServices(c, refl, table, name, entries) == Ok((RewriteAll(c, table, name, resolved.value), resolved.value)))
    decreases |entries|
  {
    if |entries| == 0 {
      assert RewriteAll(c, table, name, []) == c;
    } else {
      var e := entries[0];
      var rest := entries[1..];
      var outcome := EntryOutcome(c, refl, table, name, e);
      if outcome.Ok? {
        var next := RewriteService(c, table, name, e.id, outcome.value);
        DistinctTail(entries);
        ProcessServicesDecoupled(next, refl, table, name, rest);
        ResolveEachFrame(c, next, refl, table, name, rest);
        var resolvedRest := ResolveEach(c, refl, table, name, rest);
        if resolvedRest.Ok? {
          ClassForAbsent(resolvedRest.value, e.id);
          RewriteAllCons(c, table, name, e.id, outcome.value, resolvedRest.value);
        }
      }
    }
  }

  /**
   * `findTags` on a well-formed container: resolve every tagged service
   * against the container as given, rewrite them, and store the registry
   * of the resolved (id, class) pairs; or report the first failing service.
   */
  lemma FindTagsResolvesThenRewrites(c: Container, refl: Reflection, table: Table, name: TagName, position: nat, ext: bool)
    requires Valid(c)
    ensures var resolved := ResolveEach(c, refl, table, name, TaggedServices(c, name));
      && (resolved.Err? ==> FindTags(c, refl, table, name, position, ext) == Err(resolved.error))
      && (resolved.Ok? ==>
            FindTags(c, refl, table, name, position, ext) ==
            ReplaceArgument(RewriteAll(c, table, name, resolved.value), ExtensionId, position, Registration(resolved.value, ext)))
  {
    TaggedServicesDistinct(c, name);
    ProcessServicesDecoupled(c, refl, table, name, TaggedServices(c, name));
  }

  /**
   * After `findTags` succeeds on a well-formed container, every tagged
   * service resolved, each one other than the aggregating service is
   * rewritten for its class, and argument `position` holds the registry of
   * the resolved pairs.
   */
  lemma FindTagsRegistersEveryService(c: Container, refl: Reflection, table: Table, name: TagName, position: nat, ext: bool)
    requires Valid(c)
    ensures FindTags(c, refl, table, name, position, ext).Ok? ==>
      var entries := TaggedServices(c, name);
      var resolved := ResolveEach(c, refl, table, name, entries);
      var out := FindTags(c, refl, table, name, position, ext).value;
      && resolved.Ok?
      && ExtensionId in out.defs
      && out.defs[ExtensionId].args[position] == Registration(resolved.value, ext)
      && (forall i :: 0 <= i < |entries| && entries[i].id != ExtensionId ==>
            out.defs[entries[i].id] == RewriteDefinition(c.defs[entries[i].id], table, name, resolved.value[i].className))
  {
    if FindTags(c, refl, table, name, position, ext).Ok? {
      var entries := TaggedServices(c, name);
      var resolved := ResolveEach(c, refl, table, name, entries);
      FindTagsResolvesThenRewrites(c, refl, table, name, position, ext);
      assert resolved.Ok?;
      var pairs := resolved.value;
      var mid := RewriteAll(c, table, name, pairs);
      var out := FindTags(c, refl, table, name, position, ext).value;
      assert ReplaceArgument(mid, ExtensionId, position, Registration(pairs, ext)) == Ok(out);
      TaggedServicesDistinct(c, name);
      ResolveEachIds(c, refl, table, name, entries);
      forall i | 0 <= i < |entries| && entries[i].id != ExtensionId
        ensures out.defs[entries[i].id] == RewriteDefinition(c.defs[entries[i].id], table, name, pairs[i].className)
      {
        var id := entries[i].id;
        assert id in c.defs;
        ClassForDistinct(entries, pairs, i);
        RewriteAllAt(c, table, name, pairs, id);
        assert out.defs[id] == mid.defs[id];
      }
    }
  }

  lemma ResolveEachIds(c: Container, refl: Reflection, table: Table, name: TagName, entries: seq<Tagged>)
    requires ResolveEach(c, refl, table, name, entries).Ok?
    ensures var pairs := ResolveEach(c, refl, table, name, entries).value;
      |pairs| == |entries| && forall k :: 0 <= k < |entries| ==> pairs[k].id == entries[k].id
  {
  }

  lemma RewriteAllAt(c: Container, table: Table, name: TagName, pairs: seq<Resolved>, id: ServiceId)
    requires id in c.defs && ClassFor(pairs, id).Some?
    ensures id in RewriteAll(c, table, name, pairs).defs
    ensures RewriteAll(c, table, name, pairs).defs[id] == RewriteDefinition(c.defs[id], table, name, ClassFor(pairs, id).value)
  {
  }

  lemma {:induction false} ClassForDistinct(entries: seq<Tagged>, pairs: seq<Resolved>, i: int)
    requires Distinct(EntryIds(entries)) && |pairs| == |entries|
    requires forall k :: 0 <= k < |entries| ==> pairs[k].id == entries[k].id
    requires 0 <= i < |entries|
    ensures ClassFor(pairs, entries[i].id) == Some(pairs[i].className)
    decreases i
  {
    if i > 0 {
      DistinctTail(entries);
      assert pairs[0].id != entries[i].id by {
        assert entries[1..][i - 1] == entries[i];
      }
      ClassForDistinct(entries[1..], pairs[1..], i - 1);
    }
  }

  /**
   * The type registry (argument 0 for the type tag): its keys are exactly
   * the resolved classes, and each maps to the id of the last service
   * resolved to it.
   */
  lemma TypeRegistryKeepsLastService(c: Container, refl: Reflection, table: Table, name: TagName, position: nat, i: int)
    requires Valid(c)
    ensures FindTags(c, refl, table, name, position, false).Ok? ==>
      var entries := TaggedServices(c, name);
      var resolved := ResolveEach(c, refl, table, name, entries);
      var out := FindTags(c, refl, table, name, position, false).value;
      resolved.Ok? &&
      var pairs := resolved.value;
      ExtensionId in out.defs && position < |out.defs[ExtensionId].args| &&
      var arg := out.defs[ExtensionId].args[position];
      && arg.IdMap? && arg.byClass.Keys == Classes(pairs)
      && (0 <= i < |pairs| && (forall j :: i < j < |pairs| ==> pairs[j].className != pairs[i].className) ==>
            arg.byClass[pairs[i].className] == entries[i].id)
  {
    if FindTags(c, refl, table, name, position, false).Ok? {
      FindTagsRegistersEveryService(c, refl, table, name, position, false);
      var entries := TaggedServices(c, name);
      var pairs := ResolveEach(c, refl, table, name, entries).value;
      ResolveEachIds(c, refl, table, name, entries);
      if 0 <= i < |pairs| && (forall j :: i < j < |pairs| ==> pairs[j].className != pairs[i].className) {
        LastIdByClassAtLastIndex(pairs, i);
      }
    }
  }

  /**
   * The extension registry (argument 1 for the extension tag): its keys are
   * exactly the resolved classes, and each maps to all ids resolved to it,
   * in lookup order.
   */
  lemma ExtensionRegistryKeepsAllServices(c: Container, refl: Reflection, table: Table, name: TagName, position: nat, cls: ClassName)
    requires Valid(c)
    ensures FindTags(c, refl, table, name, position, true).Ok? ==>
      var entries := TaggedServices(c, name);
      var resolved := ResolveEach(c, refl, table, name, entries);
      var out := FindTags(c, refl, table, name, position, true).value;
      resolved.Ok? &&
      var pairs := resolved.value;
      ExtensionId in out.defs && position < |out.defs[ExtensionId].args| &&
      var arg := out.defs[ExtensionId].args[position];
      && arg.IdListMap? && arg.byClasses.Keys == Classes(pairs)
      && (cls in arg.byClasses ==> arg.byClasses[cls] == IdsWithClass(pairs, cls))
  {
    if FindTags(c, refl, table, name, position, true).Ok? {
      FindTagsRegistersEveryService(c, refl, table, name, position, true);
      var pairs := ResolveEach(c, refl, table, name, TaggedServices(c, name)).value;
      IdsByClassIsComplete(pairs, cls);
    }
  }
}
