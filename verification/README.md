# DefaultValuePass, modelled in Dafny

The Klipper default-value bundle ships one compiler pass, `DefaultValuePass`.
When the Symfony container is compiled, the pass:

- collects every service tagged `klipper_default_value.type` and every service
  tagged `klipper_default_value.type_extension`;
- decides which class each of those services registers under. The class comes
  from an explicit `class` tag attribute, which may be a `%parameter%`
  placeholder. Otherwise the pass checks the service's class against the
  type interfaces and `AbstractSimpleType`. As written, it then builds a
  container definition from the constructor arguments rather than the type,
  so it takes the one string argument as the class, or PHP null when there is
  no argument (see "## Findings");
- redirects that class once through Doctrine's "resolve target entity" table;
- rewrites the service's tag and constructor arguments to name the redirected
  class;
- writes the registries (class => id for types, class => ids for extensions)
  into arguments 0 and 1 of the aggregating service
  `klipper_default_value.extension`.

The model is a pure transformation over immutable data:

- `wrappers.dfy`: `Option` and `Result`.
- `definitions.dfy`:
  - the container (registration-ordered ids, definitions, parameters);
  - definitions (class, arguments, tags, method calls);
  - errors of the pass;
  - the tag lookup;
  - the container's argument replacement.
- `resolve_targets.dfy`: the resolve-target table built from the listener's
  `addResolveTargetEntity` calls, and the single redirection step.
- `class_names.dfy`:
  - explicit class attributes and `%parameter%` placeholders (PHP's
    `trim($s, '%')` written out);
  - class inference over an abstract `Reflection` value (which class
    implements which interface, which class has which parent, and which class
    a simple type reports when built).
- `rewrite.dfy`: rewriting one definition's tag attributes and constructor
  arguments.
- `registry.dfy`: the two registries, and a reference definition (ids
  registered under a class, in order) that both are proved against.
- `default_value_pass.dfy`:
  - the loop of `findTags`, `findTags` itself and `process`;
  - a reference reading in which all classes are resolved against the
    original container before any rewrite, with the theorem that the two
    agree;
  - the registry theorems.
- `scenarios.dfy`: containers shaped like those of the bundle's test suite, and
  the outcome the pass produces on them.

A failing PHP call (an exception) is an `Err` of the pass. Class resolution
reports, in lookup order, the first service that fails.

## Model

| member | source | states |
|---|---|---|
| Definitions.TaggedServices | DependencyInjection/Compiler/DefaultValuePass.php:62 | The lookup lists exactly the registered services whose definition carries the tag name, even with no occurrence. Each comes with that tag's attribute sets. Entries appear in registration order. |
| Definitions.TaggedServicesDistinct | DependencyInjection/Compiler/DefaultValuePass.php:62 | On a well-formed container no service is listed twice by a tag lookup. |
| Definitions.ReplaceArgument | DependencyInjection/Compiler/DefaultValuePass.php:77 | Replacing an argument of a missing service fails with service-not-found. It succeeds exactly when the index is below the argument count, otherwise it fails with out-of-range. On success only that argument of that service changes. |
| ResolveTargets.TableOf | DependencyInjection/Compiler/DefaultValuePass.php:176-180 | Every key of the table is the class named by some `addResolveTargetEntity` call. |
| ResolveTargets.GetResolveTargets | DependencyInjection/Compiler/DefaultValuePass.php:168-185 | The table is empty without the Doctrine listener definition. Otherwise its keys come only from the listener's `addResolveTargetEntity` calls. |
| ResolveTargets.TableOfLastCallWins | DependencyInjection/Compiler/DefaultValuePass.php:176-180 | The last `addResolveTargetEntity` call for a class decides its entry. A call with a target maps the class to that target. A call without a target, read as PHP null, leaves no entry. |
| ResolveTargets.TableOfOnlyAddCalls | DependencyInjection/Compiler/DefaultValuePass.php:176-180 | A class that no `addResolveTargetEntity` call names has no entry, whatever other calls the listener has. |
| ResolveTargets.TableOfIgnoresOtherCalls | DependencyInjection/Compiler/DefaultValuePass.php:177 | Appending a call to any other method leaves the table unchanged. |
| ResolveTargets.FindResolveTarget | DependencyInjection/Compiler/DefaultValuePass.php:150-159 | A mapped class becomes its target. Any other class is returned unchanged. |
| ResolveTargets.FindResolveTargetFollowsLastCall | DependencyInjection/Compiler/DefaultValuePass.php:154-178 | The redirection of a class is the target of its last `addResolveTargetEntity` call. |
| ResolveTargets.FindResolveTargetDoesNotChain | DependencyInjection/Compiler/DefaultValuePass.php:154-156 | With A→B and B→C, A redirects to B and not to C: one step only. |
| ClassNames.TrimLeadingPercent | DependencyInjection/Compiler/DefaultValuePass.php:90 | The result is a suffix of the input that does not start with '%'. Everything cut off is '%'. |
| ClassNames.TrimTrailingPercent | DependencyInjection/Compiler/DefaultValuePass.php:90 | The result is a prefix of the input that does not end with '%'. Everything cut off is '%'. |
| ClassNames.TrimPercent | DependencyInjection/Compiler/DefaultValuePass.php:90 | `trim($s, '%')`: the input is a run of '%', then the result, then a run of '%'. The result neither starts nor ends with '%'. |
| ClassNames.TrimPercentIdempotent | DependencyInjection/Compiler/DefaultValuePass.php:90 | Trimming an already trimmed name changes nothing. |
| ClassNames.TrimPercentOfPlaceholder | DependencyInjection/Compiler/DefaultValuePass.php:90 | Trimming any number of '%' around a name that has no '%' at its edges gives back that name. |
| ClassNames.RealClassName | DependencyInjection/Compiler/DefaultValuePass.php:88-91 | A name not starting with '%' is kept. A placeholder yields the parameter named by the trimmed string, or parameter-not-found for that name. |
| ClassNames.PlaceholderResolvesParameter | DependencyInjection/Compiler/DefaultValuePass.php:88-91 | `%%p%` and `%p%%%` both resolve to parameter `p`, for any name `p` without edge '%'. A missing parameter is reported under `p`. |
| ClassNames.BuildInstanceType | DependencyInjection/Compiler/DefaultValuePass.php:128-140 | The intended reading succeeds exactly when the class has `AbstractSimpleType` as a parent and there are no arguments or one string argument. It then gives the class the built type reports. Otherwise it fails with the missing-class error naming the service and tag. |
| ClassNames.BuildInstanceTypeAsWritten | DependencyInjection/Compiler/DefaultValuePass.php:128-140 | As written, the guard is the same. On success the class is PHP null exactly when there are no arguments, and otherwise the one string argument. |
| ClassNames.AsWrittenZeroArgumentTypesCollide | DependencyInjection/Compiler/DefaultValuePass.php:132-136 | As written, any two argument-less simple types get the same (null) class. |
| ClassNames.IntendedZeroArgumentTypesStayApart | DependencyInjection/Compiler/DefaultValuePass.php:134-136 | As intended, argument-less simple types that report different classes get different classes. |
| ClassNames.AsWrittenAgreesOnOneArgument | DependencyInjection/Compiler/DefaultValuePass.php:132-136 | For a one-string-argument simple type that reports that argument as its class, both readings give that class. |
| ClassNames.GetClassName | DependencyInjection/Compiler/DefaultValuePass.php:104-139 | Inference succeeds exactly when the class is an object type, is not a type extension, and builds as a simple type. The errors are checked in order: a type extension gets missing-class with the tag; then a non-object type gets not-an-object-type; then an object type that does not build as a simple type gets missing-class with the tag. No other error is possible. |
| ClassNames.TagClass | DependencyInjection/Compiler/DefaultValuePass.php:63-65 | With a `class` attribute on the first occurrence, the class is that attribute resolved as a placeholder. Otherwise it is inferred. |
| ClassNames.ExplicitClassSkipsInference | DependencyInjection/Compiler/DefaultValuePass.php:63-65 | With an explicit class, the result depends neither on reflection nor on the service's definition, nor on any occurrence after the first. |
| ClassNames.ExtensionNeedsExplicitClass | DependencyInjection/Compiler/DefaultValuePass.php:104-110 | A type extension without an explicit class is always rejected with the missing-class error, whatever its arguments. |
| Rewrite.SetClassAttribute | DependencyInjection/Compiler/DefaultValuePass.php:216-222 | Same occurrences in the same order, each with the same attribute names. Each existing `class` attribute names the resolved class. Every other attribute is kept. |
| Rewrite.ReplaceClassInTags | DependencyInjection/Compiler/DefaultValuePass.php:210-223 | The rewritten tag has as many occurrences as before, each `class` attribute set and all else kept. A tag with no occurrence disappears after clear-and-re-add. Tags of other names are untouched. |
| Rewrite.ReplaceClassInArguments | DependencyInjection/Compiler/DefaultValuePass.php:232-244 | The argument count is kept. An argument becomes the resolved class exactly when it is a string keyed in the resolve-target table. Every other argument stays. |
| Rewrite.RewriteDefinition | DependencyInjection/Compiler/DefaultValuePass.php:195-201 | Class and method calls are kept. The arguments and the tag are rewritten as above. |
| Rewrite.ReplaceClassInArgumentsEmptyTable | DependencyInjection/Compiler/DefaultValuePass.php:237-241 | Without resolve targets, no argument changes. |
| Registry.LastIdByClass | DependencyInjection/Compiler/DefaultValuePass.php:73 | The type registry has one key per resolved class. |
| Registry.IdsByClass | DependencyInjection/Compiler/DefaultValuePass.php:71 | The extension registry has one key per resolved class, each with at least one id. |
| Registry.IdsByClassIsComplete | DependencyInjection/Compiler/DefaultValuePass.php:70-71 | Each class of the extension registry lists every id resolved to it, in lookup order. A class absent from the registry has no id. |
| Registry.LastIdByClassIsLast | DependencyInjection/Compiler/DefaultValuePass.php:72-73 | Each class of the type registry maps to the last id resolved to it. |
| Registry.LastIdByClassAtLastIndex | DependencyInjection/Compiler/DefaultValuePass.php:72-73 | The service at the last position resolved to a class is the one the type registry keeps. |
| Registry.LastIdIsLastOfIds | DependencyInjection/Compiler/DefaultValuePass.php:70-74 | The type registry keeps the last entry of the extension registry's list for the same class. |
| DefaultValuePass.RewriteService | DependencyInjection/Compiler/DefaultValuePass.php:195-201 | Rewriting one service leaves the ids, the parameters and every other definition unchanged. |
| DefaultValuePass.EntryOutcome | DependencyInjection/Compiler/DefaultValuePass.php:62-66 | A listed service missing from the container fails with service-not-found. Otherwise the service resolves exactly when its class does, and the error is the resolution's. A class the resolve-target table maps becomes its target; any other class is kept. |
| DefaultValuePass.Registration | DependencyInjection/Compiler/DefaultValuePass.php:69-74 | For extensions, each resolved class maps to every id resolved to it, in lookup order. For types, it maps to the last such id. The keys are exactly the resolved classes. |
| DefaultValuePass.ProcessServices | DependencyInjection/Compiler/DefaultValuePass.php:62-75 | The loop keeps ids, parameters, classes, calls and argument counts. It never changes a non-string argument or an unlisted service. It pairs each listed service's id, in order. The classes in those pairs, and the rewrites of the listed services, are fixed by `ProcessServicesDecoupled`. |
| DefaultValuePass.ProcessServicesFindsServices | DependencyInjection/Compiler/DefaultValuePass.php:62-67 | When every listed service exists, the loop fails only with class-resolution errors. |
| DefaultValuePass.ResolveEach | DependencyInjection/Compiler/DefaultValuePass.php:62-66 | Reference reading: the resolution succeeds exactly when every service resolves. It then gives each service's class in order. Otherwise it reports the first failing service's error. |
| DefaultValuePass.ProcessServicesDecoupled | DependencyInjection/Compiler/DefaultValuePass.php:62-75 | On distinct services, rewriting while resolving equals resolving everything against the original container and then rewriting. The same error is reported. |
| DefaultValuePass.FindTags | DependencyInjection/Compiler/DefaultValuePass.php:58-78 | Without the aggregating service the call fails. On success the shape is kept, and the registry of the right kind sits at the given position. The aggregating service's other non-string arguments are kept, and so are services without the tag. When the aggregating service is itself untagged, it keeps its tags and all its other arguments. |
| DefaultValuePass.FindTagsResolvesThenRewrites | DependencyInjection/Compiler/DefaultValuePass.php:58-78 | On a well-formed container, `findTags` is: resolve all tagged services, rewrite them, and store the registry of the resolved pairs. Otherwise it reports the first failing service. |
| DefaultValuePass.FindTagsRegistersEveryService | DependencyInjection/Compiler/DefaultValuePass.php:58-78 | After a successful `findTags`, every tagged service resolved. Each (other than the aggregating service) is rewritten for its own class, and the position holds the registry of the resolved pairs. |
| DefaultValuePass.TypeRegistryKeepsLastService | DependencyInjection/Compiler/DefaultValuePass.php:69-77 | The type registry's keys are exactly the resolved classes. Each maps to the last service resolved to it. |
| DefaultValuePass.ExtensionRegistryKeepsAllServices | DependencyInjection/Compiler/DefaultValuePass.php:69-77 | The extension registry's keys are exactly the resolved classes. Each maps to all services resolved to it, in lookup order. |
| DefaultValuePass.Process | DependencyInjection/Compiler/DefaultValuePass.php:38-47 | Without `klipper_default_value.extension` the container is returned unchanged. Otherwise, on success, argument 0 holds a class => id map and argument 1 a class => ids map. The shape and the resolve-target table are kept, and so are untagged services. When the aggregating service is untagged, its tags and later arguments are kept. |
| DefaultValuePass.ProcessRegistersTypes | DependencyInjection/Compiler/DefaultValuePass.php:38-47 | On a well-formed container with the aggregating service, a successful pass leaves in argument 0 the type registry. It holds the services tagged as types, each resolved against the container as given, with the last service winning per class. |
| DefaultValuePass.ProcessRegistersExtensions | DependencyInjection/Compiler/DefaultValuePass.php:38-47 | On a well-formed container with the aggregating service, a successful pass leaves in argument 1 the extension registry. It holds the services tagged as type extensions, resolved in the container the type step left behind. |
| Scenarios.InvalidTypeIsRejected | Tests/DependencyInjection/KlipperDefaultValueExtensionTest.php:47-53 | A tagged service whose class is not an object type, with no class attribute, makes the pass fail with not-an-object-type for that id. |
| Scenarios.ExtensionWithoutClassIsRejected | Tests/DependencyInjection/KlipperDefaultValueExtensionTest.php:61-67 | A type extension tagged without a class attribute makes the pass fail with missing-class, naming the id and the extension tag. |
| Scenarios.ResolveTargetRedirectsRegistration | Tests/DependencyInjection/KlipperDefaultValueExtensionTest.php:81-87 | A custom type tagged for `Foo\BarInterface`, with `Foo\BarInterface` redirected to `Foo\Bar`, is registered under `Foo\Bar`. Its tag attribute and its first argument both become `Foo\Bar`. |
| Scenarios.CustomConstructorWithoutClassIsRejected | Tests/DependencyInjection/KlipperDefaultValueExtensionTest.php:89-95 | A simple type taking two constructor arguments, tagged without a class attribute, makes the pass fail with missing-class for the type tag. |

## Left out

- PHP reflection (`class_implements`, `class_parents`, building the simple type) is a parameter of the model, the `Reflection` value. The scenarios fix it to the facts of the test fixtures.
- The Symfony container API is replaced by the immutable `Container` value. Its tag lookup, definition lookup, clear-and-re-add of a tag and argument replacement are written out with the behaviour the pass relies on. This includes the out-of-range error of argument replacement and the not-found errors for services and parameters.
- The bundle's `build` hook (KlipperDefaultValueBundle.php:24-29) only installs the pass into a compiler phase.
- The test fixtures' classes and XML service files are not part of this model. The scenarios rebuild the error-case and resolve-target containers by hand. These tests, which expect no error, are not reproduced as scenarios: `testCompileContainerWithExtension` and `testCompileContainerWithoutExtension` (Tests/DependencyInjection/KlipperDefaultValueExtensionTest.php:31-45; the second is covered in general by the no-op clause of `Process`), `testLoadDefaultExtensionWithClassname` (`container_extension`, :55-59), `testLoadDefaultTypeWithSimpleType` (`container_custom_simple`, :69-73) and `testLoadDefaultTypeWithCustomConstructor` (`container_custom`, :75-79). Each needs XML service files or the bundle's extension loading, which are not part of this model.
- Error messages are modelled as error kinds carrying the service id and, where the message names it, the tag name. The message text itself is left out.
- Numeric-string array keys and the key order of the registries are not modelled. A registry is a Dafny `map`.
- The `$resolveTargets` cache is not a field. `Process` computes the table once and hands it to both steps, and its contract proves the pass never changes the table. Recomputing it would therefore give the same table. The cache's survival across two different containers is left out, because the bundle builds one pass per container.
- Method-call arguments of the Doctrine listener are modelled as strings. A missing second argument reads as PHP null and removes the key, since `isset` ignores null. A missing first argument keys as the empty string. PHP's undefined-offset notice is not modelled.
- `findTaggedServiceIds` also records unused tags and rejects abstract services in some Symfony versions. Neither affects the pass and neither is modelled.
- GetClassName: the not-an-object-type message (DependencyInjection/Compiler/DefaultValuePass.php:113) names only the service id, so `NotObjectType` carries only the id.
- GetClassName: the pass model (`GetClassName`, and through it `EntryOutcome`, `FindTags`, `Process` and every registry theorem) composes the corrected `BuildInstanceType`. There, an argument-less simple type registers under the class it reports. As written (DependencyInjection/Compiler/DefaultValuePass.php:132-136), it registers under PHP null (array key ""), whatever its class. A one-string-argument type registers under that argument. The as-written behaviour is modelled only by `BuildInstanceTypeAsWritten` and its lemmas (see "## Findings").

## Findings

| source | as written | input that shows it | evidently intended | confidence | as-written member | corrected member |
|---|---|---|---|---|---|---|
| DependencyInjection/Compiler/DefaultValuePass.php:132-136 | `new \ReflectionClass($type)` reflects the container `Definition` object, so `newInstanceArgs($args)` builds a new `Definition` whose class is the one string argument, or null with no argument | Two simple types, each tagged without a class and taking no constructor argument: both register under the null class, and the second replaces the first | Reflect the type's own class (`$type->getClass()`), build the simple type and ask it for its class | medium: the one-argument case is indistinguishable for fixtures whose class is that argument; not executed | ClassNames.BuildInstanceTypeAsWritten, ClassNames.AsWrittenZeroArgumentTypesCollide | ClassNames.BuildInstanceType, ClassNames.IntendedZeroArgumentTypesStayApart |
