/**
 * The slice of a dependency-injection container that DefaultValuePass reads
 * and writes: service definitions (class, constructor arguments, tags, method
 * calls), the container parameters, and the names the pass looks for.
 */
module Definitions {
  import opened Wrappers

  type ServiceId = string
  type ClassName = string
  type TagName = string

  /** The attributes of one occurrence of a tag, e.g. `{"class": "Foo\\Bar"}`. */
  type Attributes = map<string, string>

  /** A constructor argument of a service definition. */
  datatype Arg =
    | Str(s: string)
      /** Any argument that is not a PHP string: a reference, number, boolean, null or array. */
    | Other(repr: string)
      /** The class => service id registry written into the aggregating service. */
    | IdMap(byClass: map<ClassName, ServiceId>)
      /** The class => list of service ids registry written into the aggregating service. */
    | IdListMap(byClasses: map<ClassName, seq<ServiceId>>)

  /** A method call recorded on a definition: its name and its (string) arguments. */
  datatype MethodCall = MethodCall(name: string, args: seq<string>)

  datatype Definition = Definition(
    className: ClassName,
    args: seq<Arg>,
    tags: map<TagName, seq<Attributes>>,
    calls: seq<MethodCall>)

  /** The container: service ids in registration order, their definitions, and the parameters. */
  datatype Container = Container(
    ids: seq<ServiceId>,
    defs: map<ServiceId, Definition>,
    params: map<string, string>)

  /** What can abort the pass. */
  datatype PassError =
      /** "The service id ... must have the "class" parameter in the ... tag." */
    | MissingClassAttribute(serviceId: ServiceId, tagName: TagName)
      /** "The service id ... must an instance of ...ObjectTypeInterface" */
    | NotObjectType(serviceId: ServiceId)
      /** The container has no parameter of that name. */
    | ParameterNotFound(name: string)
      /** The container has no definition with that id. */
    | ServiceNotFound(serviceId: ServiceId)
      /** An argument index beyond the arguments of the definition. */
    | ArgumentOutOfRange(index: nat)

  const ExtensionId: ServiceId := "klipper_default_value.extension"
  const ResolveTargetEntityId: ServiceId := "doctrine.orm.listeners.resolve_target_entity"
  const TypeTag: TagName := "klipper_default_value.type"
  const TypeExtensionTag: TagName := "klipper_default_value.type_extension"
  const AddResolveTargetEntity: string := "addResolveTargetEntity"
  const ClassKey: string := "class"
  const ObjectTypeInterface: ClassName := "Klipper\\Component\\DefaultValue\\ObjectTypeInterface"
  const ObjectTypeExtensionInterface: ClassName := "Klipper\\Component\\DefaultValue\\ObjectTypeExtensionInterface"
  const AbstractSimpleType: ClassName := "Klipper\\Component\\DefaultValue\\AbstractSimpleType"

  predicate Distinct<T(==)>(s: seq<T>) {
    forall i, j :: 0 <= i < j < |s| ==> s[i] != s[j]
  }

  /** A PHP container: every registered id appears once and has a definition. */
  predicate Valid(c: Container) {
    && Distinct(c.ids)
    && (forall id :: id in c.ids ==> id in c.defs)
    && (forall id :: id in c.defs ==> id in c.ids)
  }

  /** One result of a tag lookup: the service id and the list of attribute sets of that tag. */
  datatype Tagged = Tagged(id: ServiceId, tag: seq<Attributes>)

  function EntryIds(entries: seq<Tagged>): (r: seq<ServiceId>)
    ensures |r| == |entries|
    ensures forall i :: 0 <= i < |entries| ==> r[i] == entries[i].id
  {
    if |entries| == 0 then [] else [entries[0].id] + EntryIds(entries[1..])
  }

  /** A service carries a tag when the tag name is a key of its tags, even with no occurrence. */
  predicate HasTag(d: Definition, name: TagName) {
    name in d.tags
  }

  function TaggedAmong(ids: seq<ServiceId>, defs: map<ServiceId, Definition>, name: TagName): (r: seq<Tagged>)
    ensures forall i :: 0 <= i < |r| ==>
      r[i].id in defs && HasTag(defs[r[i].id], name) && r[i].tag == defs[r[i].id].tags[name]
    ensures forall id :: id in EntryIds(r) <==> id in ids && id in defs && HasTag(defs[id], name)
    ensures forall i, j :: 0 <= i < j < |r| ==> ComesBefore(ids, r[i].id, r[j].id)
  {
    if |ids| == 0 then []
    else
      var rest := TaggedAmong(ids[1..], defs, name);
      assert forall id :: id in ids <==> id == ids[0] || id in ids[1..];
      LaterInTail(ids, rest);
      if ids[0] in defs && HasTag(defs[ids[0]], name) then
        var r := [Tagged(ids[0], defs[ids[0]].tags[name])] + rest;
        assert forall j :: 0 < j < |r| ==> r[j] == rest[j - 1];
        r
      else rest
  }

  /** `a` is registered at some position before `b`. */
  predicate ComesBefore(ids: seq<ServiceId>, a: ServiceId, b: ServiceId) {
    exists p, q :: 0 <= p < q < |ids| && ids[p] == a && ids[q] == b
  }

  /** Entries ordered along `ids[1..]` are ordered along `ids`, and each comes after `ids[0]`. */
  lemma LaterInTail(ids: seq<ServiceId>, rest: seq<Tagged>)
    requires |ids| > 0
    requires forall k :: 0 <= k < |rest| ==> rest[k].id in ids[1..]
    requires forall i, j :: 0 <= i < j < |rest| ==> ComesBefore(ids[1..], rest[i].id, rest[j].id)
    ensures forall j :: 0 <= j < |rest| ==> ComesBefore(ids, ids[0], rest[j].id)
    ensures forall i, j :: 0 <= i < j < |rest| ==> ComesBefore(ids, rest[i].id, rest[j].id)
  {
    var tail := ids[1..];
    forall j | 0 <= j < |rest| ensures ComesBefore(ids, ids[0], rest[j].id) {
      assert rest[j].id in tail;
      var q :| 0 <= q < |tail| && tail[q] == rest[j].id;
      assert ids[0] == ids[0] && ids[q + 1] == rest[j].id;
    }
    forall i, j | 0 <= i < j < |rest| ensures ComesBefore(ids, rest[i].id, rest[j].id) {
      assert ComesBefore(tail, rest[i].id, rest[j].id);
      var p, q :| 0 <= p < q < |tail| && tail[p] == rest[i].id && tail[q] == rest[j].id;
      assert ids[p + 1] == rest[i].id && ids[q + 1] == rest[j].id;
    }
  }

  /**
   * The services carrying tag `name`, in registration order, each with the
   * attribute sets of that tag.
   */
  function TaggedServices(c: Container, name: TagName): (r: seq<Tagged>)
    ensures forall i :: 0 <= i < |r| ==>
      r[i].id in c.defs && HasTag(c.defs[r[i].id], name) && r[i].tag == c.defs[r[i].id].tags[name]
    ensures forall id :: id in EntryIds(r) <==> id in c.ids && id in c.defs && HasTag(c.defs[id], name)
    ensures forall i, j :: 0 <= i < j < |r| ==> ComesBefore(c.ids, r[i].id, r[j].id)
  {
    TaggedAmong(c.ids, c.defs, name)
  }

  lemma {:induction false} TaggedAmongDistinct(ids: seq<ServiceId>, defs: map<ServiceId, Definition>, name: TagName)
    requires Distinct(ids)
    ensures Distinct(EntryIds(TaggedAmong(ids, defs, name)))
  {
    if |ids| > 0 {
      TaggedAmongDistinct(ids[1..], defs, name);
      assert ids[0] !in ids[1..] by {
        forall j | 0 <= j < |ids[1..]| ensures ids[1..][j] != ids[0] {
          assert ids[1..][j] == ids[j + 1];
        }
      }
    }
  }

  /** Each service id is listed at most once by a tag lookup on a valid container. */
  lemma TaggedServicesDistinct(c: Container, name: TagName)
    requires Valid(c)
    ensures Distinct(EntryIds(TaggedServices(c, name)))
  {
    TaggedAmongDistinct(c.ids, c.defs, name);
  }

  /** The container's arguments replacement: fails beyond the last argument. */
  function ReplaceArgument(c: Container, id: ServiceId, index: nat, value: Arg): (r: Result<Container, PassError>)
    ensures id !in c.defs ==> r == Err(ServiceNotFound(id))
    ensures id in c.defs ==> (r.Ok? <==> index < |c.defs[id].args|)
    ensures id in c.defs && r.Err? ==> r.error == ArgumentOutOfRange(index)
    ensures r.Ok? ==>
      && r.value.ids == c.ids && r.value.params == c.params
      && r.value.defs.Keys == c.defs.Keys
      && (forall other :: other in c.defs && other != id ==> r.value.defs[other] == c.defs[other])
    ensures r.Ok? ==>
      var before, after := c.defs[id], r.value.defs[id];
      && after.className == before.className && after.tags == before.tags && after.calls == before.calls
      && |after.args| == |before.args|
      && after.args[index] == value
      && (forall j :: 0 <= j < |before.args| && j != index ==> after.args[j] == before.args[j])
  {
    if id !in c.defs then Err(ServiceNotFound(id))
    else if index >= |c.defs[id].args| then Err(ArgumentOutOfRange(index))
    else
      var d := c.defs[id];
      Ok(c.(defs := c.defs[id := d.(args := d.args[index := value])]))
  }
}
