/**
  The resolver as the grammar's action code keeps it: three property bags
  `global`, `group` and `region`, replaced or written in place, and the list
  `regions` that each flush pushes a merged record onto. Each method is
  proved to do what the matching function of `Scopes` describes.
 */
module Resolver {
  import opened Expressions
  import Scopes

  class ScopeResolver {
    var global: Scopes.Scope
    var group: Scopes.Scope
    var region: Scopes.Scope
    var regions: seq<Scopes.Scope>

    /** The resolver's fields as a value of `Scopes.State`. */
    function Snapshot(): Scopes.State
      reads this
    {
      Scopes.State(global, group, region, regions)
    }

    constructor ()
      ensures global == map[] && group == map[] && region == map[] && regions == []
      ensures Snapshot() == Scopes.Initial
    {
      global := map[];
      group := map[];
      region := map[];
      regions := [];
    }

    /** `saveRegion`: append the merged record, then empty `region`. */
    method SaveRegion()
      modifies this
      ensures regions == old(regions) + [Scopes.Merge(old(region), old(group), old(global))]
      ensures region == map[] && group == old(group) && global == old(global)
      ensures Snapshot() == Scopes.SaveRegion(old(Snapshot()))
    {
      var merge := Scopes.Merge(region, group, global);
      regions := regions + [merge];
      region := map[];
    }

    /**
      `setProp`: the source tests `region`, then `group`, then `global` for
      the scope to write; `region` always holds an object, so the property is
      always written there, except `__proto__`, whose setter ignores the value.
     */
    method SetProp(name: string, value: Value)
      modifies this
      ensures region == if name == Scopes.ProtoKey then old(region) else old(region)[name := value]
      ensures group == old(group) && global == old(global) && regions == old(regions)
      ensures Snapshot() == Scopes.SetProp(old(Snapshot()), name, value)
    {
      if name != Scopes.ProtoKey {
        region := region[name := value];
      }
    }

    /**
      `setHeader`: `<global>` flushes and empties `global` and `group`;
      `<group>` flushes and empties `group`; `<region>` only flushes. Any
      other header changes nothing.
     */
    method SetHeader(name: string)
      modifies this
      ensures Scopes.IsScopeHeader(name) ==>
        && regions == old(regions) + [Scopes.Merge(old(region), old(group), old(global))]
        && region == map[]
      ensures name == "<global>" ==> global == map[] && group == map[]
      ensures name == "<group>" ==> global == old(global) && group == map[]
      ensures name == "<region>" ==> global == old(global) && group == old(group)
      ensures !Scopes.IsScopeHeader(name) ==>
        global == old(global) && group == old(group) && region == old(region) && regions == old(regions)
      ensures Snapshot() == Scopes.SetHeader(old(Snapshot()), name)
    {
      if name == "<global>" {
        SaveRegion();
        global := map[];
        group := map[];
      } else if name == "<group>" {
        SaveRegion();
        group := map[];
      } else if name == "<region>" {
        SaveRegion();
      }
    }

    /**
      Feeds the expressions in order, a header to `SetHeader` and a property
      to `SetProp`, as a parser with both actions enabled would.
     */
    method Process(es: seq<Expr>)
      modifies this
      ensures Snapshot() == Scopes.Run(old(Snapshot()), es)
    {
      for i := 0 to |es|
        invariant Snapshot() == Scopes.Run(old(Snapshot()), es[..i])
      {
        match es[i] {
          case HeaderExpr(h) => SetHeader(h);
          case PropertyExpr(k, v) => SetProp(k, v);
        }
        Scopes.RunSnoc(old(Snapshot()), es[..i], es[i]);
        assert es[..i + 1] == es[..i] + [es[i]];
      }
      assert es[..|es|] == es;
    }
  }
}
