/**
 * Concrete containers shaped like the ones the bundle's tests compile, and
 * what the pass does with them. The reflection facts are those of the test
 * fixtures: CustomType is a simple object type, DefaultExtension a type
 * extension, InvalidType neither.
 */
module Scenarios {
  import opened Wrappers
  import opened Definitions
  import opened ResolveTargets
  import opened ClassNames
  import opened Rewrite
  import opened Registry
  import opened DefaultValuePass

  const CustomType: ClassName := "Fixtures\\Type\\CustomType"
  const InvalidType: ClassName := "Fixtures\\Type\\InvalidType"
  const DefaultExtension: ClassName := "Fixtures\\Extension\\DefaultExtension"

  const InvalidId: ServiceId := "test.klipper_default_value.type.invalid"
  const DefaultId: ServiceId := "test.klipper_default_value.type.default"
  const CustomId: ServiceId := "test.klipper_default_value.type.custom"

  function FixtureReflection(): Reflection {
    Reflection(
      (cls: ClassName, iface: ClassName) =>
        (cls == CustomType && iface == ObjectTypeInterface) || (cls == DefaultExtension && iface == ObjectTypeExtensionInterface),
      (cls: ClassName, parent: ClassName) => cls == CustomType && parent == AbstractSimpleType,
      (cls: ClassName, args: seq<string>) => if |args| == 1 then args[0] else cls)
  }

  /** The aggregating service, with its two registry arguments still empty. */
  function Aggregator(): Definition {
    Definition("DependencyInjectionExtension", [Other("[]"), Other("[]")], map[], [])
  }

  /** A container holding the aggregating service and one more service. */
  function WithService(id: ServiceId, d: Definition): Container {
    Container([ExtensionId, id], map[ExtensionId := Aggregator(), id := d], map[])
  }

  /** In a container of the aggregating service and one other, the lookup finds just the other. */
  lemma OnlyServiceIsTagged(c: Container, id: ServiceId, name: TagName)
    requires c.ids == [ExtensionId, id] && id != ExtensionId
    requires ExtensionId in c.defs && !HasTag(c.defs[ExtensionId], name)
    requires id in c.defs && HasTag(c.defs[id], name)
    ensures TaggedServices(c, name) == [Tagged(id, c.defs[id].tags[name])]
  {
    assert c.ids[1..] == [id];
    assert TaggedAmong([id], c.defs, name) == [Tagged(id, c.defs[id].tags[name])] by {
      assert [id][1..] == [];
    }
  }

  /** A service that is not an object type and names no class is rejected. */
  lemma InvalidTypeIsRejected()
    ensures Process(WithService(InvalidId, Definition(InvalidType, [], map[TypeTag := [map[]]], [])), FixtureReflection())
      == Err(NotObjectType(InvalidId))
  {
    var d := Definition(InvalidType, [], map[TypeTag := [map[]]], []);
    var c := WithService(InvalidId, d);
    var refl := FixtureReflection();
    OnlyServiceIsTagged(c, InvalidId, TypeTag);
    assert !refl.implements(InvalidType, ObjectTypeExtensionInterface) && !refl.implements(InvalidType, ObjectTypeInterface);
    var e := Tagged(InvalidId, [map[]]);
    assert EntryOutcome(c, refl, GetResolveTargets(c), TypeTag, e) == Err(NotObjectType(InvalidId));
    assert ProcessServices(c, refl, GetResolveTargets(c), TypeTag, [e]) == Err(NotObjectType(InvalidId));
  }

  /** A type extension tagged without a class attribute is rejected, naming the extension tag. */
  lemma ExtensionWithoutClassIsRejected()
    ensures Process(WithService(DefaultId, Definition(DefaultExtension, [], map[TypeExtensionTag := [map[]]], [])), FixtureReflection())
      == Err(MissingClassAttribute(DefaultId, TypeExtensionTag))
  {
    var d := Definition(DefaultExtension, [], map[TypeExtensionTag := [map[]]], []);
    var c := WithService(DefaultId, d);
    var refl := FixtureReflection();
    var table := GetResolveTargets(c);
    assert TaggedServices(c, TypeTag) == [] by {
      assert !HasTag(d, TypeTag);
      assert c.ids[1..] == [DefaultId] && [DefaultId][1..] == [];
    }
    var afterTypes := ReplaceArgument(c, ExtensionId, 0, IdMap(map[])).value;
    assert FindTags(c, refl, table, TypeTag, 0, false) == Ok(afterTypes);
    assert afterTypes.defs[DefaultId] == d;
    OnlyServiceIsTagged(afterTypes, DefaultId, TypeExtensionTag);
    assert refl.implements(DefaultExtension, ObjectTypeExtensionInterface);
    var e := Tagged(DefaultId, [map[]]);
    assert EntryOutcome(afterTypes, refl, table, TypeExtensionTag, e) == Err(MissingClassAttribute(DefaultId, TypeExtensionTag));
    assert ProcessServices(afterTypes, refl, table, TypeExtensionTag, [e]) == Err(MissingClassAttribute(DefaultId, TypeExtensionTag));
  }

  /** A simple type whose constructor takes two arguments cannot be inferred. */
  lemma CustomConstructorWithoutClassIsRejected()
    ensures Process(WithService(CustomId, Definition(CustomType, [Str("Foo"), Other("false")], map[TypeTag := [map[]]], [])), FixtureReflection())
      == Err(MissingClassAttribute(CustomId, TypeTag))
  {
    var d := Definition(CustomType, [Str("Foo"), Other("false")], map[TypeTag := [map[]]], []);
    var c := WithService(CustomId, d);
    var refl := FixtureReflection();
    OnlyServiceIsTagged(c, CustomId, TypeTag);
    assert !refl.implements(CustomType, ObjectTypeExtensionInterface) && refl.implements(CustomType, ObjectTypeInterface);
    assert !SimpleConstructorArgs(d.args);
    var e := Tagged(CustomId, [map[]]);
    assert EntryOutcome(c, refl, GetResolveTargets(c), TypeTag, e) == Err(MissingClassAttribute(CustomId, TypeTag));
    assert ProcessServices(c, refl, GetResolveTargets(c), TypeTag, [e]) == Err(MissingClassAttribute(CustomId, TypeTag));
  }

  const BarInterface: ClassName := "Foo\\BarInterface"
  const Bar: ClassName := "Foo\\Bar"

  /** The listener definition mapping `Foo\BarInterface` to `Foo\Bar`. */
  function Listener(): Definition {
    Definition("ResolveTargetEntityListener", [], map[], [MethodCall(AddResolveTargetEntity, [BarInterface, Bar])])
  }

  /** A custom type tagged for `Foo\BarInterface` and taking it as its first argument. */
  function RedirectedCustom(): Definition {
    Definition(CustomType, [Str(BarInterface), Other("false")], map[TypeTag := [map[ClassKey := BarInterface]]], [])
  }

  function RedirectContainer(): Container {
    Container([ExtensionId, ResolveTargetEntityId, CustomId],
              map[ExtensionId := Aggregator(), ResolveTargetEntityId := Listener(), CustomId := RedirectedCustom()], map[])
  }

  lemma RedirectTable()
    ensures GetResolveTargets(RedirectContainer()) == map[BarInterface := Bar]
  {
    var calls := Listener().calls;
    assert calls[..0] == [];
  }

  lemma RedirectTagged(c: Container)
    requires c.ids == RedirectContainer().ids && c.defs.Keys == RedirectContainer().defs.Keys
    requires !HasTag(c.defs[ExtensionId], TypeTag) && !HasTag(c.defs[ResolveTargetEntityId], TypeTag)
    requires c.defs[CustomId] == RedirectedCustom()
    ensures TaggedServices(c, TypeTag) == [Tagged(CustomId, [map[ClassKey := BarInterface]])]
  {
    assert c.ids[1..] == [ResolveTargetEntityId, CustomId];
    assert [ResolveTargetEntityId, CustomId][1..] == [CustomId];
    assert [CustomId][1..] == [];
    assert TaggedAmong([CustomId], c.defs, TypeTag) == [Tagged(CustomId, [map[ClassKey := BarInterface]])];
    assert TaggedAmong([ResolveTargetEntityId, CustomId], c.defs, TypeTag) == [Tagged(CustomId, [map[ClassKey := BarInterface]])];
  }

  lemma RedirectUntagged(c: Container)
    requires c.ids == RedirectContainer().ids && c.defs.Keys == RedirectContainer().defs.Keys
    requires forall id :: id in c.defs ==> !HasTag(c.defs[id], TypeExtensionTag)
    ensures TaggedServices(c, TypeExtensionTag) == []
  {
    assert c.ids[1..] == [ResolveTargetEntityId, CustomId];
    assert [ResolveTargetEntityId, CustomId][1..] == [CustomId];
    assert [CustomId][1..] == [];
  }

  /** The custom type rewritten for `Foo\Bar`: tag attribute and first argument. */
  lemma RedirectRewrite()
    ensures RewriteDefinition(RedirectedCustom(), map[BarInterface := Bar], TypeTag, Bar)
      == Definition(CustomType, [Str(Bar), Other("false")], map[TypeTag := [map[ClassKey := Bar]]], [])
  {
    var rewritten := RewriteDefinition(RedirectedCustom(), map[BarInterface := Bar], TypeTag, Bar);
    assert rewritten.args == [Str(Bar), Other("false")];
    assert map[ClassKey := BarInterface][ClassKey := Bar] == map[ClassKey := Bar];
    assert [map[ClassKey := BarInterface]][1..] == [];
    assert SetClassAttribute([map[ClassKey := BarInterface]], Bar) == [map[ClassKey := Bar]];
  }

  /** The type tag pass registers the custom type under `Foo\Bar`. */
  lemma RedirectTypes()
    ensures var c := RedirectContainer();
      var table := map[BarInterface := Bar];
      var next := RewriteService(c, table, TypeTag, CustomId, Bar);
      FindTags(c, FixtureReflection(), table, TypeTag, 0, false) == ReplaceArgument(next, ExtensionId, 0, IdMap(map[Bar := CustomId]))
  {
    var c := RedirectContainer();
    var refl := FixtureReflection();
    var table := map[BarInterface := Bar];
    RedirectTagged(c);
    var e := Tagged(CustomId, [map[ClassKey := BarInterface]]);
    assert BarInterface[0] != '%';
    assert EntryOutcome(c, refl, table, TypeTag, e) == Ok(Bar);
    var next := RewriteService(c, table, TypeTag, CustomId, Bar);
    assert [e][1..] == [];
    assert ProcessServices(next, refl, table, TypeTag, []) == Ok((next, []));
    assert [Resolved(CustomId, Bar)] + [] == [Resolved(CustomId, Bar)];
    assert ProcessServices(c, refl, table, TypeTag, [e]) == Ok((next, [Resolved(CustomId, Bar)]));
    assert LastIdByClass([Resolved(CustomId, Bar)]) == map[Bar := CustomId];
  }

  /** With nothing tagged as a type extension, the second step only records an empty list map. */
  lemma RedirectExtensions(a: Container)
    requires a.ids == RedirectContainer().ids && a.defs.Keys == RedirectContainer().defs.Keys
    requires forall id :: id in a.defs ==> !HasTag(a.defs[id], TypeExtensionTag)
    requires |a.defs[ExtensionId].args| == 2
    ensures FindTags(a, FixtureReflection(), map[BarInterface := Bar], TypeExtensionTag, 1, true)
      == ReplaceArgument(a, ExtensionId, 1, IdListMap(map[]))
  {
    RedirectUntagged(a);
  }

  /** The service ids of the redirect scenario are pairwise different. */
  lemma RedirectIdsDiffer()
    ensures ExtensionId != CustomId && ResolveTargetEntityId != CustomId && ExtensionId != ResolveTargetEntityId
  {
    assert |ExtensionId| != |CustomId| && |ResolveTargetEntityId| != |CustomId| && |ExtensionId| != |ResolveTargetEntityId|;
  }

  /** The container once the type tag step has run. */
  function RedirectAfterTypes(): Container {
    Container([ExtensionId, ResolveTargetEntityId, CustomId],
              map[ExtensionId := Aggregator().(args := [IdMap(map[Bar := CustomId]), Other("[]")]),
                  ResolveTargetEntityId := Listener(),
                  CustomId := Definition(CustomType, [Str(Bar), Other("false")], map[TypeTag := [map[ClassKey := Bar]]], [])],
              map[])
  }

  lemma RedirectRegistered()
    ensures var next := RewriteService(RedirectContainer(), map[BarInterface := Bar], TypeTag, CustomId, Bar);
      ReplaceArgument(next, ExtensionId, 0, IdMap(map[Bar := CustomId])) == Ok(RedirectAfterTypes())
  {
    var c := RedirectContainer();
    var next := RewriteService(c, map[BarInterface := Bar], TypeTag, CustomId, Bar);
    var afterTypes := ReplaceArgument(next, ExtensionId, 0, IdMap(map[Bar := CustomId]));
    RedirectIdsDiffer();
    assert afterTypes.value.defs[ExtensionId] == RedirectAfterTypes().defs[ExtensionId] by {
      assert next.defs[ExtensionId] == Aggregator();
    }
    assert afterTypes.value.defs[CustomId] == RedirectAfterTypes().defs[CustomId] by {
      RedirectRewrite();
    }
    assert afterTypes.value.defs[ResolveTargetEntityId] == Listener();
    assert afterTypes.value.defs == RedirectAfterTypes().defs;
  }

  lemma RedirectTypeStep()
    ensures FindTags(RedirectContainer(), FixtureReflection(), map[BarInterface := Bar], TypeTag, 0, false) == Ok(RedirectAfterTypes())
  {
    RedirectRegistered();
    RedirectTypes();
  }

  /** The container once both steps have run. */
  function RedirectFinal(): Container {
    RedirectAfterTypes().(defs := RedirectAfterTypes().defs[ExtensionId := Aggregator().(args := [IdMap(map[Bar := CustomId]), IdListMap(map[])])])
  }

  lemma RedirectExtensionStep()
    ensures FindTags(RedirectAfterTypes(), FixtureReflection(), map[BarInterface := Bar], TypeExtensionTag, 1, true) == Ok(RedirectFinal())
  {
    var afterTypes := RedirectAfterTypes();
    assert ReplaceArgument(afterTypes, ExtensionId, 1, IdListMap(map[])) == Ok(RedirectFinal()) by {
      assert afterTypes.defs[ExtensionId].args[1 := IdListMap(map[])] == [IdMap(map[Bar := CustomId]), IdListMap(map[])];
    }
    RedirectIdsDiffer();
    assert forall id :: id in afterTypes.defs ==> !HasTag(afterTypes.defs[id], TypeExtensionTag);
    RedirectExtensions(afterTypes);
  }

  /**
   * A custom type registered for an interface that Doctrine redirects is
   * registered under the concrete class, and both its tag attribute and its
   * constructor argument are rewritten to it.
   */
  lemma ResolveTargetRedirectsRegistration()
    ensures var out := Process(RedirectContainer(), FixtureReflection());
      && out.Ok?
      && out.value.defs[ExtensionId].args == [IdMap(map[Bar := CustomId]), IdListMap(map[])]
      && out.value.defs[CustomId] == Definition(CustomType, [Str(Bar), Other("false")], map[TypeTag := [map[ClassKey := Bar]]], [])
  {
    RedirectTable();
    RedirectTypeStep();
    RedirectExtensionStep();
    assert Process(RedirectContainer(), FixtureReflection()) == Ok(RedirectFinal());
    RedirectIdsDiffer();
  }
}
