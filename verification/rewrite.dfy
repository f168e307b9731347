/**
 * Rewriting a tagged service so that it names its resolved class: in the
 * `class` attribute of each occurrence of the tag, and in every constructor
 * argument that is a redirected class name.
 */
module Rewrite {
  import opened Definitions
  import opened ResolveTargets

  /** Each occurrence that has a `class` attribute now names `cls`; nothing else changes. */
  function SetClassAttribute(occurrences: seq<Attributes>, cls: ClassName): (r: seq<Attributes>)
    ensures |r| == |occurrences|
    ensures forall i :: 0 <= i < |r| ==> r[i].Keys == occurrences[i].Keys
    ensures forall i :: 0 <= i < |r| && ClassKey in r[i] ==> r[i][ClassKey] == cls
    ensures forall i, k :: 0 <= i < |r| && k in occurrences[i] && k != ClassKey ==> r[i][k] == occurrences[i][k]
  {
    if |occurrences| == 0 then []
    else
      var first := occurrences[0];
      [if ClassKey in first then first[ClassKey := cls] else first] + SetClassAttribute(occurrences[1..], cls)
  }

  /**
   * `replaceClassInTags`: the tag is cleared and its occurrences are added
   * back, in order, with their `class` attribute set to `cls`. A tag with no
   * occurrence is not added back. Other tags are untouched.
   */
  function ReplaceClassInTags(tags: map<TagName, seq<Attributes>>, name: TagName, cls: ClassName): (r: map<TagName, seq<Attributes>>)
    ensures name in r <==> name in tags && |tags[name]| > 0
    ensures name in r ==>
      && |r[name]| == |tags[name]|
      && (forall i :: 0 <= i < |r[name]| ==> r[name][i].Keys == tags[name][i].Keys)
      && (forall i :: 0 <= i < |r[name]| && ClassKey in r[name][i] ==> r[name][i][ClassKey] == cls)
      && (forall i, k :: 0 <= i < |r[name]| && k in tags[name][i] && k != ClassKey ==> r[name][i][k] == tags[name][i][k])
    ensures forall n :: n != name ==> (n in r <==> n in tags)
    ensures forall n :: n != name && n in tags ==> r[n] == tags[n]
  {
    var occurrences := if name in tags then tags[name] else [];
    if |occurrences| == 0 then tags - {name}
    else tags[name := SetClassAttribute(occurrences, cls)]
  }

  /** The argument is a string that the resolve-target table redirects. */
  predicate IsRedirected(table: Table, arg: Arg) {
    arg.Str? && arg.s in table
  }

  /**
   * `replaceClassInArguments`: every argument that is a redirected class
   * name becomes the service's resolved class; every other argument stays.
   */
  function ReplaceClassInArguments(table: Table, args: seq<Arg>, cls: ClassName): (r: seq<Arg>)
    ensures |r| == |args|
    ensures forall i :: 0 <= i < |args| && IsRedirected(table, args[i]) ==> r[i] == Str(cls)
    ensures forall i :: 0 <= i < |args| && !IsRedirected(table, args[i]) ==> r[i] == args[i]
  {
    if |args| == 0 then []
    else
      [if IsRedirected(table, args[0]) then Str(cls) else args[0]] + ReplaceClassInArguments(table, args[1..], cls)
  }

  /** `replaceResolveTargetClass`: rewrite the arguments, then the tag, of one definition. */
  function RewriteDefinition(d: Definition, table: Table, name: TagName, cls: ClassName): (r: Definition)
    ensures r.className == d.className && r.calls == d.calls
    ensures r.args == ReplaceClassInArguments(table, d.args, cls)
    ensures r.tags == ReplaceClassInTags(d.tags, name, cls)
  {
    d.(args := ReplaceClassInArguments(table, d.args, cls), tags := ReplaceClassInTags(d.tags, name, cls))
  }

  /** Without any redirection the arguments are left exactly as they were. */
  lemma ReplaceClassInArgumentsEmptyTable(args: seq<Arg>, cls: ClassName)
    ensures ReplaceClassInArguments(map[], args, cls) == args
  {
  }
}
