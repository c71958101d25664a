/** Where a MySQL service is rendered to and which of its clusters accept writes, told by topology and parameters. */
module MySqlWriters {
  import opened MySqlRendering
  import opened Options
  import opened Sequences
  import opened Splitting
  import opened Text

  function Primary(context: Context, parameters: Parameters): string {
    if TrimSpace(parameters.primaryCluster) != "" then TrimSpace(parameters.primaryCluster) else context.placement
  }

  /** The name of a cluster that some declared standby trims to. */
  ghost predicate Declared(parameters: Parameters, name: string) {
    name != "" && exists declared | declared in parameters.standbyClusters :: TrimSpace(declared) == name
  }

  ghost predicate Spread(context: Context) {
    context.topology == "multi-region"
  }

  /** The primary and, across regions, every declared standby. */
  ghost predicate Rendered(context: Context, parameters: Parameters, cluster: string) {
    cluster == Primary(context, parameters) || (Spread(context) && Declared(parameters, cluster))
  }

  /** Active-passive is asked for, or nothing is and the plan spans regions. */
  ghost predicate OnePasses(context: Context, parameters: Parameters) {
    var requested := TrimSpace(parameters.replicationMode);
    requested == "active-passive" || (requested == "" && Spread(context))
  }

  ghost predicate AllWriteTogether(parameters: Parameters) {
    TrimSpace(parameters.replicationMode) == "galera"
  }

  lemma {:induction false} StandbysAre(primary: string, declared: seq<string>, name: string)
    ensures name in Standbys(primary, declared)
       <==> name != "" && name != primary && exists d | d in declared :: TrimSpace(d) == name
  {
    if declared != [] {
      var rest, last := declared[..|declared| - 1], declared[|declared| - 1];
      StandbysAre(primary, rest, name);
      assert forall d :: d in declared <==> d in rest || d == last;
    }
  }

  /** Where each name first occurs. */
  ghost predicate FirstAt(declared: seq<string>, name: string, at: nat) {
    at < |declared| && TrimSpace(declared[at]) == name && forall i | 0 <= i < at :: TrimSpace(declared[i]) != name
  }

  /** Standbys come in the order in which the declarations first name them. */
  lemma {:induction false} StandbysInOrder(primary: string, declared: seq<string>)
    ensures var names := Standbys(primary, declared);
            forall i, j, a, b | 0 <= i < j < |names| && FirstAt(declared, names[i], a)
                                && FirstAt(declared, names[j], b) ::
              a < b
  {
    if declared != [] {
      var rest := declared[..|declared| - 1];
      var before, names := Standbys(primary, rest), Standbys(primary, declared);
      StandbysInOrder(primary, rest);
      forall i, j, a, b | 0 <= i < j < |names| && FirstAt(declared, names[i], a) && FirstAt(declared, names[j], b)
        ensures a < b
      {
        OrderGrows(primary, declared, i, a);
        OrderGrows(primary, declared, j, b);
      }
    }
  }

  /** A standby that was there before keeps its place; a new one is named last. */
  lemma OrderGrows(primary: string, declared: seq<string>, i: nat, at: nat)
    requires declared != []
    requires var names := Standbys(primary, declared); i < |names| && FirstAt(declared, names[i], at)
    ensures var rest := declared[..|declared| - 1];
            var before, names := Standbys(primary, rest), Standbys(primary, declared);
            if i < |before| then names[i] == before[i] && FirstAt(rest, names[i], at) && at < |rest| else at == |rest|
  {
    var rest := declared[..|declared| - 1];
    var before, names := Standbys(primary, rest), Standbys(primary, declared);
    if i < |before| {
      StandbysAre(primary, rest, before[i]);
      var d :| d in rest && TrimSpace(d) == before[i];
      var k :| 0 <= k < |rest| && rest[k] == d;
      assert declared[k] == d;
    } else {
      StandbysAre(primary, rest, names[i]);
      StandbysDiffer(primary, declared);
      assert names[i] in names;
      assert forall k | 0 <= k < |rest| :: declared[k] in rest;
    }
  }

  /** Which clusters are rendered, and with which roles. */
  lemma RolesAre(context: Context, parameters: Parameters, r: ClusterRole)
    ensures r in ClusterRoles(context, parameters)
       <==> if r.cluster == Primary(context, parameters) then r.role == "primary"
            else Rendered(context, parameters, r.cluster)
                 && r.role == if AllWriteTogether(parameters) then "peer" else "standby"
  {
    var primary := Primary(context, parameters);
    var names, role := Standbys(primary, parameters.standbyClusters), StandbyRole(context, parameters);
    StandbysAre(primary, parameters.standbyClusters, r.cluster);
    WithRoleHas(names, role, r);
  }

  lemma WithRoleHas(names: seq<string>, role: string, r: ClusterRole)
    ensures r in WithRole(names, role) <==> r.role == role && r.cluster in names
  {
    if r.role == role && r.cluster in names {
      var i :| 0 <= i < |names| && names[i] == r.cluster;
      assert WithRole(names, role)[i] == r;
    }
  }

  /** Nothing that is written into a configuration holds a line break. */
  ghost predicate NoBreaks(context: Context, parameters: Parameters) {
    && '\n' !in context.instance && '\n' !in context.namespace && '\n' !in parameters.monitorInterval
    && forall cluster | Rendered(context, parameters, cluster) :: '\n' !in cluster
  }

  lemma NoBreaksOneLiners(context: Context, parameters: Parameters)
    requires NoBreaks(context, parameters)
    ensures OneLiners(context, parameters)
  {
    forall r | r in ClusterRoles(context, parameters) ensures Unbroken(r.cluster) {
      RolesAre(context, parameters, r);
      assert Rendered(context, parameters, r.cluster);
    }
  }

  /** What the configuration of a rendered cluster sets: nothing in Galera mode; that all but the primary are read-only
      where one passes to the others; and otherwise that the cluster is not. */
  lemma SettingsFollowRequest(context: Context, parameters: Parameters, r: ClusterRole)
    requires NoBreaks(context, parameters) && r in ClusterRoles(context, parameters)
    ensures ReadOnlySetting(Split('\n', Config(context, parameters, r.role, r.cluster)))
         == if AllWriteTogether(parameters) then None
            else if OnePasses(context, parameters)
            then Some(if r.cluster == Primary(context, parameters) then "false" else "true")
            else Some("OFF")
  {
    NoBreaksOneLiners(context, parameters);
    RolesAre(context, parameters, r);
    TextSets(context, parameters, r.role, r.cluster);
    ModeLinesUnbroken(context, parameters, r);
    UnbrokenLinesAdd(ModeLines(context, parameters, r.role, r.cluster));
  }

  /** The writers of a service whose names hold no line break: the primary alone where active-passive is asked for, or
      nothing is and the plan spans regions, and otherwise every cluster that is rendered. */
  lemma WritersFollowRequest(context: Context, parameters: Parameters, cluster: string)
    requires NoBreaks(context, parameters)
    ensures cluster in Writers(context, parameters)
       <==> if OnePasses(context, parameters) then cluster == Primary(context, parameters)
            else Rendered(context, parameters, cluster)
  {
    var role := if cluster == Primary(context, parameters) then "primary"
                else if AllWriteTogether(parameters) then "peer" else "standby";
    var r := ClusterRole(cluster, role);
    RolesAre(context, parameters, r);
    if r in ClusterRoles(context, parameters) {
      WritersAre(context, parameters, r);
      WritableIff(context, parameters, r);
      SettingsFollowRequest(context, parameters, r);
      assert !TurnsOn("false") && !TurnsOn("OFF") && TurnsOn("true");
    } else if cluster in Writers(context, parameters) {
      var other :| other in ClusterRoles(context, parameters) && other.cluster == cluster;
      RolesAre(context, parameters, other);
    }
  }

  /* ---------- Where artifacts go ---------- */

  /** The path of an artifact of a cluster, as a delivery repository lays it out. */
  function PathOf(context: Context, cluster: string, name: string): string {
    "clusters/" + cluster + "/tenants/" + context.tenant + "/projects/" + context.project
    + "/services/" + context.instance + "/" + name
  }

  /** The manifests of a cluster; two more back it up. */
  ghost predicate Manifest(parameters: Parameters, name: string) {
    || name in ["namespace.yaml", "service.yaml", "headless-service.yaml", "read-service.yaml", "configmap.yaml",
                "statefulset.yaml"]
    || (parameters.backupProfile != "" && name in ["backup-pvc.yaml", "backup-cronjob.yaml"])
  }

  lemma ClusterPathsAre(context: Context, parameters: Parameters, cluster: string, path: string)
    ensures path in ClusterPaths(context, parameters, cluster)
       <==> exists name :: Manifest(parameters, name) && path == PathOf(context, cluster, name)
  {
    var names, paths := ArtifactNames(parameters), ClusterPaths(context, parameters, cluster);
    forall name ensures name in names <==> Manifest(parameters, name) {
    }
    forall i | 0 <= i < |names| ensures paths[i] == PathOf(context, cluster, names[i]) {
      PathGrouped(context, cluster, names[i]);
    }
    if path in paths {
      var i :| 0 <= i < |paths| && paths[i] == path;
      assert names[i] in names;
    }
    if name :| Manifest(parameters, name) && path == PathOf(context, cluster, name) {
      var i :| 0 <= i < |names| && names[i] == name;
      assert paths[i] == path;
    }
  }

  lemma PathGrouped(context: Context, cluster: string, name: string)
    ensures ArtifactPath(PackagePath(context, cluster), name) == PathOf(context, cluster, name)
  {
    var suffix := PackageSuffix(context);
    assert "clusters/" + cluster + suffix
        == "clusters/" + cluster + "/tenants/" + context.tenant + "/projects/" + context.project
           + "/services/" + context.instance;
  }

  lemma {:induction false} PathsOfRoles(context: Context, parameters: Parameters, roles: seq<ClusterRole>, path: string)
    ensures path in AllPaths(context, parameters, roles)
       <==> exists r | r in roles :: path in ClusterPaths(context, parameters, r.cluster)
  {
    if roles != [] {
      var rest, last := roles[..|roles| - 1], roles[|roles| - 1];
      PathsOfRoles(context, parameters, rest, path);
      assert forall r :: r in roles <==> r in rest || r == last;
    }
  }

  /** The artifacts of a render are the manifests of the rendered clusters, each under its own cluster's path. */
  lemma PathsAre(context: Context, parameters: Parameters, path: string)
    ensures path in AllPaths(context, parameters, ClusterRoles(context, parameters))
       <==> exists cluster, name | Rendered(context, parameters, cluster) && Manifest(parameters, name) ::
              path == PathOf(context, cluster, name)
  {
    var roles := ClusterRoles(context, parameters);
    PathsOfRoles(context, parameters, roles, path);
    if r :| r in roles && path in ClusterPaths(context, parameters, r.cluster) {
      RolesAre(context, parameters, r);
      ClusterPathsAre(context, parameters, r.cluster, path);
    }
    if cluster, name :| Rendered(context, parameters, cluster) && Manifest(parameters, name)
                        && path == PathOf(context, cluster, name) {
      var r := ClusterRole(cluster, if cluster == Primary(context, parameters) then "primary"
                                    else if AllWriteTogether(parameters) then "peer" else "standby");
      RolesAre(context, parameters, r);
      ClusterPathsAre(context, parameters, cluster, path);
    }
  }
}
