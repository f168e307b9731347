/**
 * The registries the pass hands to the aggregating service: resolved class
 * => service id for types, resolved class => service ids for type
 * extensions, both built in tag-lookup order.
 */
module Registry {
  import opened Definitions

  /** A tagged service together with the class it registers under. */
  datatype Resolved = Resolved(id: ServiceId, className: ClassName)

  function Classes(pairs: seq<Resolved>): set<ClassName> {
    set p | p in pairs :: p.className
  }

  /** The ids registered under `cls`, in order: the reference every registry is measured against. */
  function IdsWithClass(pairs: seq<Resolved>, cls: ClassName): seq<ServiceId> {
    if |pairs| == 0 then []
    else (if pairs[0].className == cls then [pairs[0].id] else []) + IdsWithClass(pairs[1..], cls)
  }

  /** `$services[$class] = $serviceId`, over all services in order: later ids overwrite earlier ones. */
  function LastIdByClass(pairs: seq<Resolved>): (m: map<ClassName, ServiceId>)
    ensures m.Keys == Classes(pairs)
    decreases |pairs|
  {
    if |pairs| == 0 then map[]
    else
      var prefix := pairs[..|pairs| - 1];
      var last := pairs[|pairs| - 1];
      assert pairs == prefix + [last];
      LastIdByClass(prefix)[last.className := last.id]
  }

  /** `$services[$class][] = $serviceId`, over all services in order: ids are appended. */
  function IdsByClass(pairs: seq<Resolved>): (m: map<ClassName, seq<ServiceId>>)
    ensures m.Keys == Classes(pairs)
    ensures forall cls :: cls in m ==> |m[cls]| > 0
    decreases |pairs|
  {
    if |pairs| == 0 then map[]
    else
      var prefix := pairs[..|pairs| - 1];
      var last := pairs[|pairs| - 1];
      assert pairs == prefix + [last];
      var m := IdsByClass(prefix);
      m[last.className := (if last.className in m then m[last.className] else []) + [last.id]]
  }

  lemma {:induction false} IdsWithClassAppend(pairs: seq<Resolved>, p: Resolved, cls: ClassName)
    ensures IdsWithClass(pairs + [p], cls) == IdsWithClass(pairs, cls) + (if p.className == cls then [p.id] else [])
    decreases |pairs|
  {
    if |pairs| > 0 {
      assert (pairs + [p])[1..] == pairs[1..] + [p];
      IdsWithClassAppend(pairs[1..], p, cls);
    }
  }

  lemma {:induction false} IdsWithClassEmpty(pairs: seq<Resolved>, cls: ClassName)
    requires cls !in Classes(pairs)
    ensures IdsWithClass(pairs, cls) == []
    decreases |pairs|
  {
    if |pairs| > 0 {
      assert pairs[0] in pairs;
      assert Classes(pairs[1..]) <= Classes(pairs) by {
        forall q | q in pairs[1..] ensures q in pairs {
        }
      }
      IdsWithClassEmpty(pairs[1..], cls);
    }
  }

  /** The extension registry lists, for each class, every id registered under it, in order. */
  lemma {:induction false} IdsByClassIsComplete(pairs: seq<Resolved>, cls: ClassName)
    ensures cls in IdsByClass(pairs) ==> IdsByClass(pairs)[cls] == IdsWithClass(pairs, cls)
    ensures cls !in IdsByClass(pairs) ==> IdsWithClass(pairs, cls) == []
    decreases |pairs|
  {
    if |pairs| > 0 {
      var prefix := pairs[..|pairs| - 1];
      var last := pairs[|pairs| - 1];
      assert pairs == prefix + [last];
      IdsByClassIsComplete(prefix, cls);
      IdsWithClassAppend(prefix, last, cls);
    } else {
      IdsWithClassEmpty(pairs, cls);
    }
  }

  /** In the type registry each class maps to the last id registered under it. */
  lemma {:induction false} LastIdByClassIsLast(pairs: seq<Resolved>, cls: ClassName)
    requires cls in LastIdByClass(pairs)
    ensures |IdsWithClass(pairs, cls)| > 0
    ensures LastIdByClass(pairs)[cls] == IdsWithClass(pairs, cls)[|IdsWithClass(pairs, cls)| - 1]
    decreases |pairs|
  {
    var prefix := pairs[..|pairs| - 1];
    var last := pairs[|pairs| - 1];
    assert pairs == prefix + [last];
    IdsWithClassAppend(prefix, last, cls);
    if last.className != cls {
      LastIdByClassIsLast(prefix, cls);
    }
  }

  lemma LastIdByClassAppend(pairs: seq<Resolved>, p: Resolved)
    ensures LastIdByClass(pairs + [p]) == LastIdByClass(pairs)[p.className := p.id]
  {
    assert (pairs + [p])[..|pairs + [p]| - 1] == pairs;
  }

  /** Index form of the same fact: the pair at the last index with class `cls` supplies the id. */
  lemma LastIdByClassAtLastIndex(pairs: seq<Resolved>, i: int)
    requires 0 <= i < |pairs|
    requires forall j :: i < j < |pairs| ==> pairs[j].className != pairs[i].className
    ensures pairs[i].className in LastIdByClass(pairs) && LastIdByClass(pairs)[pairs[i].className] == pairs[i].id
  {
    var cls := pairs[i].className;
    var before := pairs[..i];
    var upTo := before + [pairs[i]];
    var suffix := pairs[i + 1..];
    SplitAt(pairs, i);
    LastIdByClassAppend(before, pairs[i]);
    assert cls in LastIdByClass(upTo) && LastIdByClass(upTo)[cls] == pairs[i].id;
    forall j | 0 <= j < |suffix| ensures suffix[j].className != cls {
      assert suffix[j] == pairs[i + 1 + j];
    }
    LastIdByClassSuffix(upTo, suffix, cls);
  }

  lemma SplitAt<T>(s: seq<T>, i: int)
    requires 0 <= i < |s|
    ensures s == s[..i] + [s[i]] + s[i + 1..]
  {
  }

  /** Pairs with other classes appended later do not change the id of `cls`. */
  lemma {:induction false} LastIdByClassSuffix(pairs: seq<Resolved>, suffix: seq<Resolved>, cls: ClassName)
    requires forall j :: 0 <= j < |suffix| ==> suffix[j].className != cls
    requires cls in LastIdByClass(pairs)
    ensures cls in LastIdByClass(pairs + suffix) && LastIdByClass(pairs + suffix)[cls] == LastIdByClass(pairs)[cls]
    decreases |suffix|
  {
    if |suffix| > 0 {
      var s := suffix[..|suffix| - 1];
      var last := suffix[|suffix| - 1];
      assert pairs + suffix == (pairs + s) + [last];
      forall j | 0 <= j < |s| ensures s[j].className != cls {
        assert s[j] == suffix[j];
      }
      LastIdByClassSuffix(pairs, s, cls);
      LastIdByClassAppend(pairs + s, last);
    } else {
      assert pairs + suffix == pairs;
    }
  }

  /** The type registry keeps exactly the last entry of each extension registry list. */
  lemma LastIdIsLastOfIds(pairs: seq<Resolved>, cls: ClassName)
    requires cls in Classes(pairs)
    ensures LastIdByClass(pairs)[cls] == IdsByClass(pairs)[cls][|IdsByClass(pairs)[cls]| - 1]
  {
    LastIdByClassIsLast(pairs, cls);
    IdsByClassIsComplete(pairs, cls);
  }
}
