/**
 * How the pass finds the class a tagged service registers: an explicit
 * `class` tag attribute (possibly a `%parameter%` placeholder), or an
 * inference from the service's own class and constructor arguments.
 */
module ClassNames {
  import opened Wrappers
  import opened Definitions

  /**
   * What the pass asks PHP reflection: `class_implements`, `class_parents`,
   * and the class a simple type reports once built with the given string
   * constructor arguments. A class autoloading cannot find implements nothing.
   */
  datatype Reflection = Reflection(
    implements: (ClassName, ClassName) -> bool,
    hasParent: (ClassName, ClassName) -> bool,
    simpleClass: (ClassName, seq<string>) -> ClassName)

  predicate AllPercent(s: string) {
    forall i :: 0 <= i < |s| ==> s[i] == '%'
  }

  /** Every character of `s` from `lo` up to `hi` is '%'. */
  predicate PercentsBetween(s: string, lo: nat, hi: nat)
    requires lo <= hi <= |s|
  {
    forall i :: lo <= i < hi ==> s[i] == '%'
  }

  /** Neither the first nor the last character is '%'. */
  predicate NoEdgePercent(s: string) {
    s == [] || (s[0] != '%' && s[|s| - 1] != '%')
  }

  function TrimLeadingPercent(s: string): (r: string)
    ensures |r| <= |s| && r == s[|s| - |r|..]
    ensures PercentsBetween(s, 0, |s| - |r|)
    ensures r == [] || r[0] != '%'
  {
    if |s| > 0 && s[0] == '%' then TrimLeadingPercent(s[1..]) else s
  }

  function TrimTrailingPercent(s: string): (r: string)
    ensures |r| <= |s| && r == s[..|r|]
    ensures PercentsBetween(s, |r|, |s|)
    ensures r == [] || r[|r| - 1] != '%'
  {
    if |s| > 0 && s[|s| - 1] == '%' then TrimTrailingPercent(s[..|s| - 1]) else s
  }

  /**
   * PHP's `trim($s, '%')`: `s` is some '%' characters, then the result, then
   * some '%' characters, and the result neither starts nor ends with '%'.
   */
  function TrimPercent(s: string): (r: string)
    ensures NoEdgePercent(r)
    ensures exists a, b :: 0 <= a <= b <= |s| && r == s[a..b] && PercentsBetween(s, 0, a) && PercentsBetween(s, b, |s|)
  {
    var left := TrimLeadingPercent(s);
    var r := TrimTrailingPercent(left);
    TrimSplitsAt(s, left, r);
    r
  }

  /** Where the leading and trailing trims cut `s`. */
  lemma TrimSplitsAt(s: string, left: string, r: string)
    requires |left| <= |s| && left == s[|s| - |left|..]
    requires |r| <= |left| && r == left[..|r|] && PercentsBetween(left, |r|, |left|)
    ensures r == s[|s| - |left|..|s| - |left| + |r|]
    ensures PercentsBetween(s, |s| - |left| + |r|, |s|)
  {
    var a, b := |s| - |left|, |s| - |left| + |r|;
    assert s[a..b] == left[..|r|];
    forall i | b <= i < |s| ensures s[i] == '%' {
      assert s[i] == left[i - a];
    }
  }

  /** `strpos($name, '%') === 0`: the name is a parameter placeholder. */
  predicate IsParameterReference(name: string) {
    |name| > 0 && name[0] == '%'
  }

  /**
   * `getRealClassName`: a placeholder is replaced by the parameter it names
   * (the name without its surrounding '%'); any other name is kept.
   */
  function RealClassName(params: map<string, string>, name: string): (r: Result<ClassName, PassError>)
    ensures !IsParameterReference(name) ==> r == Ok(name)
    ensures IsParameterReference(name) ==>
      && (r.Ok? <==> TrimPercent(name) in params)
      && (r.Ok? ==> r.value == params[TrimPercent(name)])
      && (r.Err? ==> r.error == ParameterNotFound(TrimPercent(name)))
  {
    if IsParameterReference(name) then
      var key := TrimPercent(name);
      if key in params then Ok(params[key]) else Err(ParameterNotFound(key))
    else Ok(name)
  }

  function Percents(n: nat): (s: string)
    ensures |s| == n && AllPercent(s)
  {
    if n == 0 then [] else "%" + Percents(n - 1)
  }

  /** A trimmed string is left alone by a second trim. */
  lemma TrimPercentClean(s: string)
    requires NoEdgePercent(s)
    ensures TrimPercent(s) == s
  {
  }

  lemma {:induction false} TrimLeadingPercents(n: nat, s: string)
    requires s == [] || s[0] != '%'
    ensures TrimLeadingPercent(Percents(n) + s) == s
  {
    if n > 0 {
      assert Percents(n) == "%" + Percents(n - 1);
      assert (Percents(n) + s)[1..] == Percents(n - 1) + s;
      TrimLeadingPercents(n - 1, s);
    }
  }

  lemma {:induction false} TrimTrailingPercents(s: string, n: nat)
    requires s == [] || s[|s| - 1] != '%'
    ensures TrimTrailingPercent(s + Percents(n)) == s
  {
    if n > 0 {
      var p := Percents(n);
      assert p[n - 1] == '%';
      assert (s + p)[..|s + p| - 1] == s + p[..n - 1];
      AllPercentIsPercents(p[..n - 1]);
      TrimTrailingPercents(s, n - 1);
    }
  }

  lemma {:induction false} AllPercentIsPercents(s: string)
    requires AllPercent(s)
    ensures s == Percents(|s|)
    decreases |s|
  {
    if |s| > 0 {
      AllPercentIsPercents(s[1..]);
    }
  }

  /** Trimming is idempotent. */
  lemma TrimPercentIdempotent(s: string)
    ensures TrimPercent(TrimPercent(s)) == TrimPercent(s)
  {
    TrimPercentClean(TrimPercent(s));
  }

  lemma TrimPercentUnfold(s: string)
    ensures TrimPercent(s) == TrimTrailingPercent(TrimLeadingPercent(s))
  {
  }

  lemma PercentsConcat(a: nat, b: nat)
    ensures Percents(a) + Percents(b) == Percents(a + b)
  {
    var s := Percents(a) + Percents(b);
    assert AllPercent(s) by {
      forall i | 0 <= i < |s| ensures s[i] == '%' {
        if i < a {
          assert s[i] == Percents(a)[i];
        } else {
          assert s[i] == Percents(b)[i - a];
        }
      }
    }
    AllPercentIsPercents(s);
  }

  /** The name a placeholder `%..%p%..%` refers to is `p`. */
  lemma TrimPercentOfPlaceholder(lead: nat, p: string, trail: nat)
    requires NoEdgePercent(p)
    ensures TrimPercent(Percents(lead) + p + Percents(trail)) == p
  {
    if p == [] {
      assert Percents(lead) + p + Percents(trail) == Percents(lead) + Percents(trail);
      TrimPercentOfPercents(lead, trail);
    } else {
      assert Percents(lead) + p + Percents(trail) == Percents(lead) + (p + Percents(trail));
      TrimPercentOfNonEmptyPlaceholder(lead, p, trail);
    }
  }

  lemma TrimPercentOfPercents(lead: nat, trail: nat)
    ensures TrimPercent(Percents(lead) + Percents(trail)) == []
  {
    PercentsConcat(lead, trail);
    TrimLeadingAllPercent(Percents(lead + trail));
    TrimPercentUnfold(Percents(lead + trail));
  }

  lemma TrimPercentOfNonEmptyPlaceholder(lead: nat, p: string, trail: nat)
    requires p != [] && NoEdgePercent(p)
    ensures TrimPercent(Percents(lead) + (p + Percents(trail))) == p
  {
    TrimLeadingOfPlaceholder(lead, p, trail);
    TrimTrailingPercents(p, trail);
    TrimPercentUnfold(Percents(lead) + (p + Percents(trail)));
  }

  lemma TrimLeadingOfPlaceholder(lead: nat, p: string, trail: nat)
    requires p != [] && p[0] != '%'
    ensures TrimLeadingPercent(Percents(lead) + (p + Percents(trail))) == p + Percents(trail)
  {
    var pt := p + Percents(trail);
    assert pt[0] == p[0];
    TrimLeadingPercents(lead, pt);
  }

  /**
   * A placeholder `%name%`, with any positive number of leading and any
   * number of trailing '%', resolves to the value of parameter `name`.
   */
  lemma PlaceholderResolvesParameter(params: map<string, string>, lead: nat, p: string, trail: nat)
    requires lead > 0 && NoEdgePercent(p)
    ensures p in params ==> RealClassName(params, Percents(lead) + p + Percents(trail)) == Ok(params[p])
    ensures p !in params ==> RealClassName(params, Percents(lead) + p + Percents(trail)) == Err(ParameterNotFound(p))
  {
    var name := Percents(lead) + p + Percents(trail);
    assert name[0] == Percents(lead)[0] == '%';
    TrimPercentOfPlaceholder(lead, p, trail);
  }

  lemma {:induction false} TrimLeadingAllPercent(s: string)
    requires AllPercent(s)
    ensures TrimLeadingPercent(s) == []
    decreases |s|
  {
    if |s| > 0 {
      TrimLeadingAllPercent(s[1..]);
    }
  }

  /** A simple type can be built when it takes no argument or exactly one string argument. */
  predicate SimpleConstructorArgs(args: seq<Arg>) {
    |args| == 0 || (|args| == 1 && args[0].Str?)
  }

  /** The string constructor arguments of a simple type. */
  function StringArgs(args: seq<Arg>): seq<string> {
    if |args| == 1 && args[0].Str? then [args[0].s] else []
  }

  /** The service's class is a simple type: it extends AbstractSimpleType and has simple arguments. */
  predicate BuildsAsSimpleType(refl: Reflection, d: Definition) {
    refl.hasParent(d.className, AbstractSimpleType) && SimpleConstructorArgs(d.args)
  }

  /** The service may be registered without an explicit class attribute. */
  predicate Inferable(refl: Reflection, d: Definition) {
    && !refl.implements(d.className, ObjectTypeExtensionInterface)
    && refl.implements(d.className, ObjectTypeInterface)
    && BuildsAsSimpleType(refl, d)
  }

  /**
   * `buildInstanceType`, as intended: build the simple type from the
   * service's class and arguments and ask it for its class.
   */
  function BuildInstanceType(refl: Reflection, d: Definition, id: ServiceId, tagName: TagName): (r: Result<ClassName, PassError>)
    ensures r.Ok? <==> BuildsAsSimpleType(refl, d)
    ensures r.Ok? ==> r.value == refl.simpleClass(d.className, StringArgs(d.args))
    ensures r.Err? ==> r.error == MissingClassAttribute(id, tagName)
  {
    if BuildsAsSimpleType(refl, d) then Ok(refl.simpleClass(d.className, StringArgs(d.args)))
    else Err(MissingClassAttribute(id, tagName))
  }

  /**
   * `buildInstanceType` as written: it reflects the container definition
   * object instead of the type's class, so the instance it builds is a
   * fresh definition whose class is the one string argument, or PHP null
   * (`None`) when there is no argument.
   */
  function BuildInstanceTypeAsWritten(refl: Reflection, d: Definition, id: ServiceId, tagName: TagName): (r: Result<Option<ClassName>, PassError>)
    ensures r.Ok? <==> BuildsAsSimpleType(refl, d)
    ensures r.Ok? ==> (r.value.None? <==> |d.args| == 0)
    ensures r.Ok? && r.value.Some? ==> r.value.value == d.args[0].s
    ensures r.Err? ==> r.error == MissingClassAttribute(id, tagName)
  {
    if BuildsAsSimpleType(refl, d) then
      if |d.args| == 0 then Ok(None) else Ok(Some(d.args[0].s))
    else Err(MissingClassAttribute(id, tagName))
  }

  /**
   * As written, every simple type built without arguments gets the null
   * class, whatever its own class: two such services share one registry key.
   */
  lemma AsWrittenZeroArgumentTypesCollide(refl: Reflection, d1: Definition, d2: Definition, id1: ServiceId, id2: ServiceId, tagName: TagName)
    requires BuildsAsSimpleType(refl, d1) && BuildsAsSimpleType(refl, d2)
    requires |d1.args| == 0 && |d2.args| == 0
    ensures BuildInstanceTypeAsWritten(refl, d1, id1, tagName) == BuildInstanceTypeAsWritten(refl, d2, id2, tagName) == Ok(None)
  {
  }

  /**
   * As intended, argument-less simple types keep the classes they report, so
   * types reporting different classes get different registry keys.
   */
  lemma IntendedZeroArgumentTypesStayApart(refl: Reflection, d1: Definition, d2: Definition, id1: ServiceId, id2: ServiceId, tagName: TagName)
    requires BuildsAsSimpleType(refl, d1) && BuildsAsSimpleType(refl, d2)
    requires |d1.args| == 0 && |d2.args| == 0
    requires refl.simpleClass(d1.className, []) != refl.simpleClass(d2.className, [])
    ensures BuildInstanceType(refl, d1, id1, tagName).Ok? && BuildInstanceType(refl, d2, id2, tagName).Ok?
    ensures BuildInstanceType(refl, d1, id1, tagName).value != BuildInstanceType(refl, d2, id2, tagName).value
  {
  }

  /**
   * For a simple type that reports its one string argument as its class, the
   * code as written and the intended reading agree.
   */
  lemma AsWrittenAgreesOnOneArgument(refl: Reflection, d: Definition, id: ServiceId, tagName: TagName)
    requires BuildsAsSimpleType(refl, d) && |d.args| == 1
    requires refl.simpleClass(d.className, [d.args[0].s]) == d.args[0].s
    ensures BuildInstanceTypeAsWritten(refl, d, id, tagName) == Ok(Some(d.args[0].s))
    ensures BuildInstanceType(refl, d, id, tagName) == Ok(d.args[0].s)
  {
  }

  /**
   * `getClassName`: infer the registered class of a service that has no
   * explicit class attribute. A type extension must always name its class;
   * a service that is not an object type is rejected; an object type is
   * accepted only when it builds as a simple type.
   */
  function GetClassName(refl: Reflection, d: Definition, id: ServiceId, tagName: TagName): (r: Result<ClassName, PassError>)
    ensures r.Ok? <==> Inferable(refl, d)
    ensures r.Ok? ==> r.value == refl.simpleClass(d.className, StringArgs(d.args))
    ensures refl.implements(d.className, ObjectTypeExtensionInterface) ==> r == Err(MissingClassAttribute(id, tagName))
    ensures !refl.implements(d.className, ObjectTypeExtensionInterface) && !refl.implements(d.className, ObjectTypeInterface) ==>
      r == Err(NotObjectType(id))
    ensures !refl.implements(d.className, ObjectTypeExtensionInterface) && refl.implements(d.className, ObjectTypeInterface) && !BuildsAsSimpleType(refl, d) ==> r == Err(MissingClassAttribute(id, tagName))
    ensures r.Err? ==> r.error == NotObjectType(id) || r.error == MissingClassAttribute(id, tagName)
  {
    if refl.implements(d.className, ObjectTypeExtensionInterface) then Err(MissingClassAttribute(id, tagName))
    else if !refl.implements(d.className, ObjectTypeInterface) then Err(NotObjectType(id))
    else BuildInstanceType(refl, d, id, tagName)
  }

  /** The first occurrence of the tag carries a `class` attribute. */
  predicate HasExplicitClass(tag: seq<Attributes>) {
    |tag| > 0 && ClassKey in tag[0]
  }

  /** The registered class of a tagged service, before redirection. */
  function TagClass(params: map<string, string>, refl: Reflection, tagName: TagName, id: ServiceId, d: Definition, tag: seq<Attributes>): (r: Result<ClassName, PassError>)
    ensures HasExplicitClass(tag) ==> r == RealClassName(params, tag[0][ClassKey])
    ensures !HasExplicitClass(tag) ==> r == GetClassName(refl, d, id, tagName)
  {
    if HasExplicitClass(tag) then RealClassName(params, tag[0][ClassKey])
    else GetClassName(refl, d, id, tagName)
  }

  /**
   * An explicit class attribute wins: neither reflection nor the service's
   * definition is consulted, and only the first occurrence of the tag counts.
   */
  lemma ExplicitClassSkipsInference(params: map<string, string>, refl1: Reflection, refl2: Reflection, tagName: TagName, id: ServiceId,
                                    d1: Definition, d2: Definition, tag: seq<Attributes>, more: seq<Attributes>)
    requires HasExplicitClass(tag)
    ensures TagClass(params, refl1, tagName, id, d1, tag) == TagClass(params, refl2, tagName, id, d2, tag[..1] + more)
  {
  }

  /** Without an explicit class, a type extension is always rejected, whatever its arguments. */
  lemma ExtensionNeedsExplicitClass(params: map<string, string>, refl: Reflection, tagName: TagName, id: ServiceId, d: Definition, tag: seq<Attributes>)
    requires !HasExplicitClass(tag) && refl.implements(d.className, ObjectTypeExtensionInterface)
    ensures TagClass(params, refl, tagName, id, d, tag) == Err(MissingClassAttribute(id, tagName))
  {
  }
}
