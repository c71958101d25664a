/** Role definitions form a graph that may be cyclic: the built-in roles list themselves among their permissions. */
module Roles {
  import opened Sequences

  const PLATFORM := "platform"
  const TENANT := "tenant"

  datatype Role = Role(name: string, scope: string, permissions: seq<string>)

  type Index = map<string, Role>

  /** Later definitions of a name replace earlier ones. */
  ghost function Indexed(roles: seq<Role>): Index {
    if roles == [] then map[] else Indexed(roles[..|roles| - 1])[roles[|roles| - 1].name := roles[|roles| - 1]]
  }

  lemma {:induction false} IndexHoldsDefinedNames(roles: seq<Role>, name: string)
    ensures name in Indexed(roles) <==> exists role :: role in roles && role.name == name
  {
    if roles != [] {
      var rest, last := roles[..|roles| - 1], roles[|roles| - 1];
      IndexHoldsDefinedNames(rest, name);
      assert roles == rest + [last];
    }
  }

  /** The index holds exactly the names that are defined, each with the last role defined under it. */
  lemma {:induction false} IndexHoldsLastDefinitions(roles: seq<Role>, i: nat)
    requires i < |roles| && forall j | i < j < |roles| :: roles[j].name != roles[i].name
    ensures roles[i].name in Indexed(roles) && Indexed(roles)[roles[i].name] == roles[i]
  {
    var rest := roles[..|roles| - 1];
    if i < |rest| {
      assert rest[i] == roles[i] && forall j | i < j < |rest| :: rest[j] == roles[j];
      IndexHoldsLastDefinitions(rest, i);
    }
  }

  method NewRoleExpander(roles: seq<Role>) returns (index: Index)
    ensures index == Indexed(roles)
  {
    index := map[];
    for i := 0 to |roles|
      invariant index == Indexed(roles[..i])
    {
      index := index[roles[i].name := roles[i]];
      assert roles[..i + 1][..i] == roles[..i];
    }
    assert roles[..|roles|] == roles;
  }

  /** A role passes its permissions on only when it is defined for the scope that is being expanded. */
  ghost predicate Edge(index: Index, scope: string, from: string, to: string) {
    from in index && index[from].scope == scope && to in index[from].permissions && to != ""
  }

  ghost predicate Path(index: Index, scope: string, path: seq<string>) {
    && path != [] && path[0] != ""
    && forall i | 0 <= i < |path| - 1 :: Edge(index, scope, path[i], path[i + 1])
  }

  ghost predicate Reachable(index: Index, scope: string, from: string, to: string) {
    exists path :: Path(index, scope, path) && path[0] == from && path[|path| - 1] == to
  }

  /** Every name an expansion could possibly meet. */
  ghost function Names(index: Index, start: string): set<string> {
    {start} + set role, name | role in index && name in index[role].permissions :: name
  }

  lemma PathStaysInNames(index: Index, scope: string, path: seq<string>)
    requires Path(index, scope, path)
    ensures path[|path| - 1] in Names(index, path[0])
  {
    if 1 < |path| {
      assert Edge(index, scope, path[|path| - 2], path[|path| - 1]);
    }
  }

  /** The names a role grants in a scope, as a set. */
  ghost function Grants(index: Index, scope: string, start: string): (grants: set<string>)
    ensures forall name :: name in grants <==> Reachable(index, scope, start, name)
  {
    assert forall name | Reachable(index, scope, start, name) :: name in Names(index, start) by {
      forall name | Reachable(index, scope, start, name) ensures name in Names(index, start) {
        var path :| Path(index, scope, path) && path[0] == start && path[|path| - 1] == name;
        PathStaysInNames(index, scope, path);
      }
    }
    set name | name in Names(index, start) && Reachable(index, scope, start, name)
  }

  lemma ReachesItself(index: Index, scope: string, name: string)
    requires name != ""
    ensures Reachable(index, scope, name, name)
  {
    assert Path(index, scope, [name]);
  }

  lemma ReachesThrough(index: Index, scope: string, from: string, via: string, to: string)
    requires from != "" && Edge(index, scope, from, via) && Reachable(index, scope, via, to)
    ensures Reachable(index, scope, from, to)
  {
    var path :| Path(index, scope, path) && path[0] == via && path[|path| - 1] == to;
    assert Path(index, scope, [from] + path);
  }

  /** A set with the start in it and closed under the edges holds everything reachable. */
  lemma {:induction false} ClosedHoldsPath(index: Index, scope: string, closed: set<string>, path: seq<string>)
    requires Path(index, scope, path) && path[0] in closed
    requires forall from, to | from in closed && Edge(index, scope, from, to) :: to in closed
    ensures path[|path| - 1] in closed
    decreases |path|
  {
    if 1 < |path| {
      assert Edge(index, scope, path[0], path[1]);
      assert path[1..][|path| - 2] == path[|path| - 1];
      ClosedHoldsPath(index, scope, closed, path[1..]);
    }
  }

  /** The state the recursive visit shares: what it has seen, and what it has put out, in order. */
  class Expansion {
    var seen: set<string>
    var out: seq<string>

    ghost predicate Valid()
      reads this
    {
      Distinct(out) && (forall name :: name in out <==> name in seen) && "" !in seen
    }

    constructor ()
      ensures Valid() && out == [] && seen == {}
    {
      seen, out := {}, [];
    }

    method Visit(index: Index, scope: string, name: string, ghost names: set<string>)
      requires Valid() && name in names
      requires forall role, permission | role in index && permission in index[role].permissions :: permission in names
      modifies this
      ensures Valid() && old(out) <= out && old(seen) <= seen
      ensures name != "" ==> name in seen
      ensures forall added | added in seen - old(seen) :: Reachable(index, scope, name, added)
      ensures forall added, next | added in seen - old(seen) && Edge(index, scope, added, next) :: next in seen
      decreases names - seen
    {
      if name == "" {
        return;
      }
      if name in seen {
        return;
      }
      seen := seen + {name};
      out := out + [name];
      ReachesItself(index, scope, name);
      if name !in index || index[name].scope != scope {
        return;
      }
      var permissions := index[name].permissions;
      for i := 0 to |permissions|
        invariant Valid() && old(out) + [name] <= out && old(seen) + {name} <= seen
        invariant forall added | added in seen - old(seen) :: Reachable(index, scope, name, added)
        invariant forall added, next | added in seen - old(seen) - {name}
                  && Edge(index, scope, added, next) :: next in seen
        invariant forall j | 0 <= j < i && permissions[j] != "" :: permissions[j] in seen
      {
        ghost var before := seen;
        Visit(index, scope, permissions[i], names);
        forall added | added in seen - before ensures Reachable(index, scope, name, added) {
          ReachesThrough(index, scope, name, permissions[i], added);
        }
      }
    }
  }

  /** Expansion terminates on every graph and puts out, once each, exactly the names reachable from the start. */
  method Expand(index: Index, roleName: string, scope: string) returns (out: seq<string>)
    ensures Distinct(out)
    ensures forall name :: name in out <==> Reachable(index, scope, roleName, name)
  {
    var expansion := new Expansion();
    expansion.Visit(index, scope, roleName, Names(index, roleName));
    out := expansion.out;
    ghost var seen := expansion.seen;
    forall name | Reachable(index, scope, roleName, name) ensures name in seen {
      var path :| Path(index, scope, path) && path[0] == roleName && path[|path| - 1] == name;
      ClosedHoldsPath(index, scope, seen, path);
    }
  }
}
