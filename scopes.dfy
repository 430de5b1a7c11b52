/**
  What the scope resolver computes, as functions on its state: the three
  scopes `global`, `group` and `region`, and the list `regions` of records
  flushed so far. The class `Resolver.ScopeResolver` updates the same state in
  place and is proved against these functions.
 */
module Scopes {
  import opened Expressions

  /** A property bag: property name to value. */
  type Scope = map<string, Value>

  // ---------------------------------------------------------------------
  // Object.assign and the merge of the three scopes
  // ---------------------------------------------------------------------

  /** `Object.assign(target, ...sources)`: copies each source in turn onto the target. */
  function Assign(target: Scope, sources: seq<Scope>): Scope
    decreases |sources|
  {
    if |sources| == 0 then target else Assign(target + sources[0], sources[1..])
  }

  /** Some source, from index `from` on, holds the key `k`. */
  predicate HeldFrom(sources: seq<Scope>, k: string, from: nat)
  {
    exists l :: from <= l < |sources| && k in sources[l]
  }

  /**
    The assigned object has the keys of the target and of every source; a key
    takes its value from the last source that holds it, and keeps the target's
    value when no source does.
   */
  lemma {:induction false} AssignLastWins(target: Scope, sources: seq<Scope>)
    ensures forall k :: k in Assign(target, sources) <==> k in target || HeldFrom(sources, k, 0)
    ensures forall k, j :: 0 <= j < |sources| && k in sources[j] && !HeldFrom(sources, k, j + 1) ==>
      k in Assign(target, sources) && Assign(target, sources)[k] == sources[j][k]
    ensures forall k :: k in target && !HeldFrom(sources, k, 0) ==> Assign(target, sources)[k] == target[k]
    decreases |sources|
  {
    if |sources| > 0 {
      var rest := sources[1..];
      AssignLastWins(target + sources[0], rest);
      forall k ensures HeldFrom(sources, k, 0) <==> k in sources[0] || HeldFrom(rest, k, 0) {
        if HeldFrom(sources, k, 0) && k !in sources[0] {
          var l :| 0 <= l < |sources| && k in sources[l];
          assert k in rest[l - 1];
        }
        if HeldFrom(rest, k, 0) {
          var l :| 0 <= l < |rest| && k in rest[l];
          assert k in sources[l + 1];
        }
      }
      forall k, j | 0 <= j < |sources| && k in sources[j] && !HeldFrom(sources, k, j + 1)
        ensures k in Assign(target, sources) && Assign(target, sources)[k] == sources[j][k]
      {
        if j > 0 {
          assert sources[j] == rest[j - 1];
        }
      }
    }
  }

  /** The record `saveRegion` flushes: `Object.assign({}, region, group, global)`. */
  function Merge(region: Scope, group: Scope, global: Scope): Scope
  {
    Assign(map[], [region, group, global])
  }

  /**
    The flushed record holds every key of the three scopes and no other;
    `global` overrides `group`, and `group` overrides `region`.
   */
  lemma MergePrecedence(region: Scope, group: Scope, global: Scope)
    ensures Merge(region, group, global).Keys == region.Keys + group.Keys + global.Keys
    ensures forall k :: k in global ==> Merge(region, group, global)[k] == global[k]
    ensures forall k :: k in group && k !in global ==> Merge(region, group, global)[k] == group[k]
    ensures forall k :: k in region && k !in group && k !in global ==> Merge(region, group, global)[k] == region[k]
  {
    var sources := [region, group, global];
    var m0: Scope := map[];
    assert sources[1..] == [group, global] && sources[1..][1..] == [global] && sources[1..][1..][1..] == [];
    calc {
      Merge(region, group, global);
      Assign(m0 + region, [group, global]);
      Assign(m0 + region + group, [global]);
      Assign(m0 + region + group + global, []);
    }
  }

  // ---------------------------------------------------------------------
  // The resolver's state and operations
  // ---------------------------------------------------------------------

  datatype State = State(global: Scope, group: Scope, region: Scope, regions: seq<Scope>)

  /** All three scopes empty, nothing flushed. */
  const Initial: State := State(map[], map[], map[], [])

  /** The headers `setHeader` acts on; every other header is ignored. */
  predicate IsScopeHeader(name: string)
  {
    name == "<global>" || name == "<group>" || name == "<region>"
  }

  /** `saveRegion`: push the merged record, then empty `region`. */
  function SaveRegion(s: State): State
  {
    s.(regions := s.regions + [Merge(s.region, s.group, s.global)], region := map[])
  }

  /**
    The one name a property assignment on a plain object does not store:
    `__proto__` is an inherited accessor, and its setter ignores a number, a
    string or a boolean.
   */
  const ProtoKey: string := "__proto__"

  /**
    `setProp`: `region` is always an object, so the assignment always lands
    there; the branches writing `group` or `global` are never taken. Writing
    `__proto__` leaves `region` as it was.
   */
  function SetProp(s: State, name: string, value: Value): State
  {
    if name == ProtoKey then s else s.(region := s.region[name := value])
  }

  /** `setHeader`: flush, then empty the scopes the header opens afresh. */
  function SetHeader(s: State, name: string): State
  {
    if name == "<global>" then SaveRegion(s).(global := map[], group := map[])
    else if name == "<group>" then SaveRegion(s).(group := map[])
    else if name == "<region>" then SaveRegion(s)
    else s
  }

  function Step(s: State, e: Expr): State
  {
    match e
    case HeaderExpr(h) => SetHeader(s, h)
    case PropertyExpr(k, v) => SetProp(s, k, v)
  }

  /** The state after each expression of `es` in turn. Nothing is flushed at the end. */
  function Run(s: State, es: seq<Expr>): State
    decreases |es|
  {
    if |es| == 0 then s else Run(Step(s, es[0]), es[1..])
  }

  // ---------------------------------------------------------------------
  // Properties of the resolver
  // ---------------------------------------------------------------------

  /** Running `es` and then `e` is running `es + [e]`. */
  lemma {:induction false} RunSnoc(s: State, es: seq<Expr>, e: Expr)
    ensures Run(s, es + [e]) == Step(Run(s, es), e)
    decreases |es|
  {
    if |es| == 0 {
      assert (es + [e])[1..] == [];
    } else {
      assert (es + [e])[1..] == es[1..] + [e];
      RunSnoc(Step(s, es[0]), es[1..], e);
    }
  }

  /** How many of the header lexemes `hs` are `<global>`, `<group>` or `<region>`. */
  function ScopeHeaderCount(hs: seq<string>): nat
  {
    if |hs| == 0 then 0
    else (if IsScopeHeader(hs[0]) then 1 else 0) + ScopeHeaderCount(hs[1..])
  }

  /**
    `regions` only grows, and by exactly one record per recognised header:
    property expressions and any other header append nothing.
   */
  lemma {:induction false} RunAppendsOnePerScopeHeader(s: State, es: seq<Expr>)
    ensures |Run(s, es).regions| == |s.regions| + ScopeHeaderCount(HeaderLexemes(es))
    ensures Run(s, es).regions[..|s.regions|] == s.regions
    decreases |es|
  {
    if |es| > 0 {
      var t := Step(s, es[0]);
      RunAppendsOnePerScopeHeader(t, es[1..]);
      assert t.regions[..|s.regions|] == s.regions;
    }
  }

  /**
    Since `setProp` only ever writes `region`, `global` and `group` never
    receive a property: once empty, they stay empty.
   */
  lemma {:induction false} OuterScopesStayEmpty(s: State, es: seq<Expr>)
    requires s.global == map[] && s.group == map[]
    ensures Run(s, es).global == map[] && Run(s, es).group == map[]
    decreases |es|
  {
    if |es| > 0 {
      OuterScopesStayEmpty(Step(s, es[0]), es[1..]);
    }
  }

  /** With `global` and `group` empty, the flushed record is the `region` scope itself. */
  lemma MergeOfRegionAlone(region: Scope)
    ensures Merge(region, map[], map[]) == region
  {
    MergePrecedence(region, map[], map[]);
  }

  /** The keys written by the property expressions of `es`. */
  function PropertyKeys(es: seq<Expr>): set<string>
  {
    set e | e in es && e.PropertyExpr? :: e.key
  }

  /** Every scope and every flushed record uses only keys from `keys`. */
  predicate KeysWithin(s: State, keys: set<string>)
  {
    && s.global.Keys <= keys && s.group.Keys <= keys && s.region.Keys <= keys
    && forall r :: r in s.regions ==> r.Keys <= keys
  }

  /** One step writes at most the key of its own property expression. */
  lemma StepKeepsKeysWithin(s: State, e: Expr, keys: set<string>)
    requires KeysWithin(s, keys) && (e.PropertyExpr? ==> e.key in keys)
    ensures KeysWithin(Step(s, e), keys)
  {
    MergePrecedence(s.region, s.group, s.global);
  }

  lemma {:induction false} RunKeepsKeysWithin(s: State, es: seq<Expr>, keys: set<string>)
    requires KeysWithin(s, keys) && PropertyKeys(es) <= keys
    ensures KeysWithin(Run(s, es), keys)
    decreases |es|
  {
    if |es| > 0 {
      assert es[0] in es;
      assert PropertyKeys(es[1..]) <= PropertyKeys(es) by {
        forall k | k in PropertyKeys(es[1..]) ensures k in PropertyKeys(es) {
          var e :| e in es[1..] && e.PropertyExpr? && e.key == k;
          assert e in es;
        }
      }
      StepKeepsKeysWithin(s, es[0], keys);
      RunKeepsKeysWithin(Step(s, es[0]), es[1..], keys);
    }
  }

  /** Starting from nothing, every flushed record holds only keys that some property expression wrote. */
  lemma RecordsHoldOnlyWrittenKeys(es: seq<Expr>)
    ensures forall r :: r in Run(Initial, es).regions ==> r.Keys <= PropertyKeys(es)
  {
    RunKeepsKeysWithin(Initial, es, PropertyKeys(es));
  }

  /**
    A property write changes `region` and nothing else: the name takes the
    value unless it is `__proto__`, and every other key keeps its value.
   */
  lemma SetPropWritesRegion(s: State, name: string, value: Value)
    ensures SetProp(s, name, value).global == s.global && SetProp(s, name, value).group == s.group
    ensures SetProp(s, name, value).regions == s.regions
    ensures name != ProtoKey ==> name in SetProp(s, name, value).region && SetProp(s, name, value).region[name] == value
    ensures name == ProtoKey ==> SetProp(s, name, value).region == s.region
    ensures forall k :: k != name ==>
      (k in SetProp(s, name, value).region <==> k in s.region) &&
      (k in s.region ==> SetProp(s, name, value).region[k] == s.region[k])
  {
  }

  /** Writing the same property twice keeps the second value. */
  lemma LastWriteWins(s: State, name: string, first: Value, second: Value)
    ensures SetProp(SetProp(s, name, first), name, second) == SetProp(s, name, second)
  {
  }

  /** Running `[e] + es` is one step on `e`, then `es`. */
  lemma RunCons(s: State, e: Expr, es: seq<Expr>)
    ensures Run(s, [e] + es) == Run(Step(s, e), es)
  {
    assert ([e] + es)[1..] == es;
  }

  /**
    A file laid out control, global, group, region, each with one property
    and the region with two: the resolver as coded flushes the `<control>`
    property at `<global>`, the `<global>` property at `<group>`, and the
    `<group>` property at `<region>`, each as a record of its own, and keeps
    the region's own properties unflushed at the end.
   */
  lemma ControlGlobalGroupRegionTrace()
    ensures Run(Initial, [
        HeaderExpr("<control>"), PropertyExpr("default_path", Str("Samples/")),
        HeaderExpr("<global>"), PropertyExpr("loop_mode", Str("one_shot")),
        HeaderExpr("<group>"), PropertyExpr("lokey", Str("36")),
        HeaderExpr("<region>"), PropertyExpr("sample", Str("kick.wav")), PropertyExpr("hikey", Str("36"))])
      == State(map[], map[], map["sample" := Str("kick.wav"), "hikey" := Str("36")],
               [map["default_path" := Str("Samples/")], map["loop_mode" := Str("one_shot")], map["lokey" := Str("36")]])
  {
    var empty: Scope := map[];
    var p1 := map["default_path" := Str("Samples/")];
    var p2 := map["loop_mode" := Str("one_shot")];
    var p3 := map["lokey" := Str("36")];
    MergeOfRegionAlone(p1);
    MergeOfRegionAlone(p2);
    MergeOfRegionAlone(p3);
    var s1 := Step(Initial, HeaderExpr("<control>"));
    assert s1 == Initial;
    var s2 := Step(s1, PropertyExpr("default_path", Str("Samples/")));
    assert s2 == State(empty, empty, p1, []);
    var s3 := Step(s2, HeaderExpr("<global>"));
    assert s3 == State(empty, empty, empty, [p1]);
    var s4 := Step(s3, PropertyExpr("loop_mode", Str("one_shot")));
    assert s4 == State(empty, empty, p2, [p1]);
    var s5 := Step(s4, HeaderExpr("<group>"));
    assert s5 == State(empty, empty, empty, [p1, p2]);
    var s6 := Step(s5, PropertyExpr("lokey", Str("36")));
    assert s6 == State(empty, empty, p3, [p1, p2]);
    var s7 := Step(s6, HeaderExpr("<region>"));
    assert s7 == State(empty, empty, empty, [p1, p2, p3]);
    var s8 := Step(s7, PropertyExpr("sample", Str("kick.wav")));
    var s9 := Step(s8, PropertyExpr("hikey", Str("36")));
    RunCons(s8, PropertyExpr("hikey", Str("36")), []);
    RunCons(s7, PropertyExpr("sample", Str("kick.wav")), [PropertyExpr("hikey", Str("36"))]);
    RunCons(s6, HeaderExpr("<region>"), [PropertyExpr("sample", Str("kick.wav")), PropertyExpr("hikey", Str("36"))]);
    RunCons(s5, PropertyExpr("lokey", Str("36")), [HeaderExpr("<region>"), PropertyExpr("sample", Str("kick.wav")), PropertyExpr("hikey", Str("36"))]);
    RunCons(s4, HeaderExpr("<group>"), [PropertyExpr("lokey", Str("36")), HeaderExpr("<region>"), PropertyExpr("sample", Str("kick.wav")), PropertyExpr("hikey", Str("36"))]);
    RunCons(s3, PropertyExpr("loop_mode", Str("one_shot")), [HeaderExpr("<group>"), PropertyExpr("lokey", Str("36")), HeaderExpr("<region>"), PropertyExpr("sample", Str("kick.wav")), PropertyExpr("hikey", Str("36"))]);
    RunCons(s2, HeaderExpr("<global>"), [PropertyExpr("loop_mode", Str("one_shot")), HeaderExpr("<group>"), PropertyExpr("lokey", Str("36")), HeaderExpr("<region>"), PropertyExpr("sample", Str("kick.wav")), PropertyExpr("hikey", Str("36"))]);
    RunCons(s1, PropertyExpr("default_path", Str("Samples/")), [HeaderExpr("<global>"), PropertyExpr("loop_mode", Str("one_shot")), HeaderExpr("<group>"), PropertyExpr("lokey", Str("36")), HeaderExpr("<region>"), PropertyExpr("sample", Str("kick.wav")), PropertyExpr("hikey", Str("36"))]);
    RunCons(Initial, HeaderExpr("<control>"), [PropertyExpr("default_path", Str("Samples/")), HeaderExpr("<global>"), PropertyExpr("loop_mode", Str("one_shot")), HeaderExpr("<group>"), PropertyExpr("lokey", Str("36")), HeaderExpr("<region>"), PropertyExpr("sample", Str("kick.wav")), PropertyExpr("hikey", Str("36"))]);
    assert Run(s9, []) == s9;
  }
}
