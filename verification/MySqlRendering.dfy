/** Which clusters a MySQL service is rendered to, with which role, and where the artifacts go. */
module MySqlRendering {
  import opened Text
  import opened Options
  import opened Sequences
  import opened Splitting

  const GALERA := "galera"
  const ACTIVE_PASSIVE := "active-passive"
  const SINGLE_PRIMARY := "single-primary"
  const MULTI_REGION := "multi-region"

  datatype Parameters = Parameters(replicationMode: string, primaryCluster: string, standbyClusters: seq<string>,
                                   backupProfile: string, monitorInterval: string)

  /** The plan's topology, the cluster the instance is placed on, and the names that make up paths and addresses. */
  datatype Context = Context(topology: string, placement: string, tenant: string, project: string, instance: string,
                             namespace: string)

  datatype ClusterRole = ClusterRole(cluster: string, role: string)

  function ReplicationMode(context: Context, parameters: Parameters): string {
    var mode := TrimSpace(parameters.replicationMode);
    if mode != "" then mode else if context.topology == MULTI_REGION then ACTIVE_PASSIVE else SINGLE_PRIMARY
  }

  function PrimaryCluster(context: Context, parameters: Parameters): string {
    FirstNonEmpty(TrimSpace(parameters.primaryCluster), context.placement)
  }

  /** Trimmed standby names other than the primary, each where it occurs first. */
  function Standbys(primary: string, declared: seq<string>): seq<string> {
    if declared == [] then []
    else
      var before, name := Standbys(primary, declared[..|declared| - 1]), TrimSpace(declared[|declared| - 1]);
      if name == "" || name == primary || name in before then before else before + [name]
  }

  method StandbyClusters(context: Context, parameters: Parameters) returns (clusters: seq<string>)
    ensures clusters == Standbys(PrimaryCluster(context, parameters), parameters.standbyClusters)
  {
    var seen: set<string> := {};
    clusters := [];
    var primary := PrimaryCluster(context, parameters);
    var declared := parameters.standbyClusters;
    for i := 0 to |declared|
      invariant clusters == Standbys(primary, declared[..i])
      invariant forall name :: name in seen <==> name in clusters
    {
      assert declared[..i + 1][..i] == declared[..i];
      var name := TrimSpace(declared[i]);
      if name == "" || name == primary {
        continue;
      }
      if name in seen {
        continue;
      }
      seen := seen + {name};
      clusters := clusters + [name];
    }
    assert declared[..|declared|] == declared;
  }

  function StandbyRole(context: Context, parameters: Parameters): string {
    if ReplicationMode(context, parameters) == GALERA then "peer" else "standby"
  }

  function WithRole(names: seq<string>, role: string): seq<ClusterRole> {
    seq(|names|, i requires 0 <= i < |names| => ClusterRole(names[i], role))
  }

  function ClusterRoles(context: Context, parameters: Parameters): seq<ClusterRole> {
    var primary := PrimaryCluster(context, parameters);
    [ClusterRole(primary, "primary")]
    + if context.topology == MULTI_REGION
      then WithRole(Standbys(primary, parameters.standbyClusters), StandbyRole(context, parameters))
      else []
  }

  lemma OneMoreRole(names: seq<string>, i: nat, role: string)
    requires i < |names|
    ensures WithRole(names[..i + 1], role) == WithRole(names[..i], role) + [ClusterRole(names[i], role)]
  {
  }

  method RenderClusterRoles(context: Context, parameters: Parameters) returns (roles: seq<ClusterRole>)
    ensures roles == ClusterRoles(context, parameters)
  {
    var primary := PrimaryCluster(context, parameters);
    roles := [ClusterRole(primary, "primary")];
    if context.topology != MULTI_REGION {
      return;
    }
    var standbys := StandbyClusters(context, parameters);
    StandbysDiffer(primary, parameters.standbyClusters);
    for i := 0 to |standbys|
      invariant roles == [ClusterRole(primary, "primary")] + WithRole(standbys[..i], StandbyRole(context, parameters))
    {
      assert standbys[i] in standbys;
      if standbys[i] == primary {
        continue;
      }
      var role := "standby";
      if ReplicationMode(context, parameters) == GALERA {
        role := "peer";
      }
      OneMoreRole(standbys, i, role);
      roles := roles + [ClusterRole(standbys[i], role)];
    }
    assert standbys[..|standbys|] == standbys;
  }

  lemma {:induction false} StandbysDiffer(primary: string, declared: seq<string>)
    ensures Distinct(Standbys(primary, declared))
    ensures forall name | name in Standbys(primary, declared) :: name != primary && name != ""
  {
    if declared != [] {
      StandbysDiffer(primary, declared[..|declared| - 1]);
    }
  }

  /** For all parameters the rendered clusters are pairwise different, and the first alone is the primary. */
  lemma ClustersDifferWithOnePrimary(context: Context, parameters: Parameters)
    ensures var roles := ClusterRoles(context, parameters);
            && (forall i, j | 0 <= i < j < |roles| :: roles[i].cluster != roles[j].cluster)
            && forall i | 0 <= i < |roles| :: roles[i].role == "primary" <==> i == 0
  {
    var primary := PrimaryCluster(context, parameters);
    var names := Standbys(primary, parameters.standbyClusters);
    StandbysDiffer(primary, parameters.standbyClusters);
    var roles := ClusterRoles(context, parameters);
    assert forall i | 1 <= i < |roles| ::
        roles[i] == ClusterRole(names[i - 1], StandbyRole(context, parameters)) && roles[i].cluster in names;
  }

  /* ---------- Who may write ---------- */

  function Line(option: string, value: string): string {
    option + ("=" + value)
  }

  const HEADER: seq<string> := [
    "[mysqld]", Line("skip-name-resolve", "ON"), Line("bind-address", "0.0.0.0"), Line("log-bin", "mysql-bin"),
    Line("binlog_format", "ROW"), Line("gtid_mode", "ON"), Line("enforce_gtid_consistency", "ON"),
    Line("innodb_flush_log_at_trx_commit", "1"), Line("sync_binlog", "1")]

  /** One address for every rendered cluster. */
  function GaleraPeers(context: Context, parameters: Parameters): seq<string> {
    var address := context.instance + "." + context.instance + "-headless." + context.namespace + ".svc.cluster.local";
    seq(|ClusterRoles(context, parameters)|, _ => address)
  }

  function OnlyIf(on: bool): string {
    if on then "true" else "false"
  }

  /** The lines that depend on the mode, in the order in which they are written. */
  function ModeLines(context: Context, parameters: Parameters, role: string, cluster: string): seq<string> {
    var mode := ReplicationMode(context, parameters);
    if mode == GALERA then [
      Line("wsrep_on", "ON"),
      Line("wsrep_provider", "/usr/lib/galera/libgalera_smm.so"),
      Line("wsrep_cluster_name", context.instance),
      Line("wsrep_cluster_address", "gcomm://" + Join(",", GaleraPeers(context, parameters))),
      Line("wsrep_node_name", cluster + ("-" + role)),
      Line("wsrep_sst_method", "rsync"),
      Line("default_storage_engine", "InnoDB"),
      Line("innodb_autoinc_lock_mode", "2")]
    else if mode == ACTIVE_PASSIVE then [
      Line("read_only", OnlyIf(role != "primary")),
      Line("super_read_only", OnlyIf(role != "primary")),
      Line("report_host", cluster),
      Line("# servicer_primary_cluster", PrimaryCluster(context, parameters)),
      Line("# servicer_failover_monitor_interval", FirstNonEmpty(parameters.monitorInterval, "10s"))]
    else [Line("read_only", "OFF"), Line("super_read_only", "OFF")]
  }

  function ConfigLines(context: Context, parameters: Parameters, role: string, cluster: string): seq<string> {
    HEADER + ModeLines(context, parameters, role, cluster)
  }

  /** The text of a cluster's server configuration. */
  function Config(context: Context, parameters: Parameters, role: string, cluster: string): string {
    Join("\n", ConfigLines(context, parameters, role, cluster)) + "\n"
  }

  /* What a server makes of the text: it reads it line by line, and of several settings the last counts. */

  const READ_ONLY := "read_only="

  function ReadOnlySetting(lines: seq<string>): Option<string> {
    if lines == [] then None
    else if READ_ONLY <= lines[|lines| - 1] then Some(lines[|lines| - 1][|READ_ONLY|..])
    else ReadOnlySetting(lines[..|lines| - 1])
  }

  /** A server accepts writes unless its configuration makes it read-only. */
  predicate Writable(text: string) {
    var setting := ReadOnlySetting(Split('\n', text));
    setting.None? || !TurnsOn(setting.value)
  }

  predicate TurnsOn(value: string) {
    value == "true" || value == "ON" || value == "1"
  }

  ghost function Writers(context: Context, parameters: Parameters): set<string> {
    set r | r in ClusterRoles(context, parameters)
        && Writable(Config(context, parameters, r.role, r.cluster)) :: r.cluster
  }

  predicate Unbroken(line: string) {
    '\n' !in line
  }

  /** Nothing that is written into a configuration holds a line break. */
  ghost predicate OneLiners(context: Context, parameters: Parameters) {
    && Unbroken(context.instance) && Unbroken(context.namespace) && Unbroken(parameters.monitorInterval)
    && forall r | r in ClusterRoles(context, parameters) :: Unbroken(r.cluster)
  }

  /** The critical checks on modes that validation makes. */
  predicate ModeAccepted(context: Context, parameters: Parameters) {
    var mode := ReplicationMode(context, parameters);
    && (mode == SINGLE_PRIMARY || mode == GALERA || mode == ACTIVE_PASSIVE)
    && (context.topology == MULTI_REGION ==>
          Standbys(PrimaryCluster(context, parameters), parameters.standbyClusters) != [] && mode != SINGLE_PRIMARY)
  }

  predicate Silent(line: string) {
    !(READ_ONLY <= line)
  }

  lemma {:induction false} SilentLinesSetNothing(lines: seq<string>, more: seq<string>)
    requires forall line | line in more :: Silent(line)
    ensures ReadOnlySetting(lines + more) == ReadOnlySetting(lines)
  {
    if more == [] {
      assert lines + more == lines;
    } else {
      assert (lines + more)[..|lines + more| - 1] == lines + more[..|more| - 1];
      assert (lines + more)[|lines + more| - 1] == more[|more| - 1] && more[|more| - 1] in more;
      SilentLinesSetNothing(lines, more[..|more| - 1]);
    }
  }

  lemma LineIsSilent(option: string, value: string)
    requires 3 <= |option| && (option[0] != 'r' || option[2] == 'p')
    ensures Silent(Line(option, value))
  {
    var line := Line(option, value);
    assert line[0] == option[0] && line[2] == option[2];
    assert READ_ONLY[0] == 'r' && READ_ONLY[2] == 'a';
  }

  lemma HeaderIsSilent()
    ensures forall line | line in HEADER :: Silent(line)
  {
    assert Silent("[mysqld]") by {
      assert "[mysqld]"[0] == '[' && READ_ONLY[0] == 'r';
    }
    LineIsSilent("skip-name-resolve", "ON");
    LineIsSilent("bind-address", "0.0.0.0");
    LineIsSilent("log-bin", "mysql-bin");
    LineIsSilent("binlog_format", "ROW");
    LineIsSilent("gtid_mode", "ON");
    LineIsSilent("enforce_gtid_consistency", "ON");
    LineIsSilent("innodb_flush_log_at_trx_commit", "1");
    LineIsSilent("sync_binlog", "1");
  }

  lemma GaleraIsSilent(context: Context, parameters: Parameters, role: string, cluster: string)
    requires ReplicationMode(context, parameters) == GALERA
    ensures forall line | line in ModeLines(context, parameters, role, cluster) :: Silent(line)
  {
    LineIsSilent("wsrep_on", "ON");
    LineIsSilent("wsrep_provider", "/usr/lib/galera/libgalera_smm.so");
    LineIsSilent("wsrep_cluster_name", context.instance);
    LineIsSilent("wsrep_cluster_address", "gcomm://" + Join(",", GaleraPeers(context, parameters)));
    LineIsSilent("wsrep_node_name", cluster + ("-" + role));
    LineIsSilent("wsrep_sst_method", "rsync");
    LineIsSilent("default_storage_engine", "InnoDB");
    LineIsSilent("innodb_autoinc_lock_mode", "2");
  }

  /** What is written after `read_only` sets it no more, whatever the names. */
  lemma RestIsSilent(context: Context, parameters: Parameters, role: string, cluster: string)
    requires ReplicationMode(context, parameters) != GALERA
    ensures forall line | line in ModeLines(context, parameters, role, cluster)[1..] :: Silent(line)
  {
    LineIsSilent("super_read_only", OnlyIf(role != "primary"));
    LineIsSilent("super_read_only", "OFF");
    LineIsSilent("report_host", cluster);
    LineIsSilent("# servicer_primary_cluster", PrimaryCluster(context, parameters));
    LineIsSilent("# servicer_failover_monitor_interval", FirstNonEmpty(parameters.monitorInterval, "10s"));
  }

  /** The setting that a cluster's lines amount to. */
  function Intended(context: Context, parameters: Parameters, role: string): Option<string> {
    var mode := ReplicationMode(context, parameters);
    if mode == GALERA then None else if mode == ACTIVE_PASSIVE then Some(OnlyIf(role != "primary")) else Some("OFF")
  }

  lemma HeaderSetsNothing()
    ensures ReadOnlySetting(HEADER) == None
  {
    HeaderIsSilent();
    SilentLinesSetNothing([], HEADER);
    assert [] + HEADER == HEADER;
  }

  lemma LastLineSets(lines: seq<string>, value: string)
    ensures ReadOnlySetting(lines + [Line("read_only", value)]) == Some(value)
  {
    var more, line := lines + [Line("read_only", value)], Line("read_only", value);
    assert line == READ_ONLY + value;
    assert more[|more| - 1] == line && READ_ONLY <= line && line[|READ_ONLY|..] == value;
  }

  lemma LinesSetIntended(context: Context, parameters: Parameters, role: string, cluster: string)
    ensures ReadOnlySetting(ConfigLines(context, parameters, role, cluster)) == Intended(context, parameters, role)
  {
    var lines := ModeLines(context, parameters, role, cluster);
    if ReplicationMode(context, parameters) == GALERA {
      HeaderSetsNothing();
      GaleraIsSilent(context, parameters, role, cluster);
      SilentLinesSetNothing(HEADER, lines);
    } else {
      RestIsSilent(context, parameters, role, cluster);
      LastLineSets(HEADER, Intended(context, parameters, role).value);
      SilentLinesSetNothing(HEADER + [lines[0]], lines[1..]);
      assert HEADER + lines == HEADER + [lines[0]] + lines[1..];
    }
  }

  lemma NoBreakInside(a: string, b: string)
    ensures Unbroken(a + b) <==> Unbroken(a) && Unbroken(b)
  {
    forall c | c in a ensures c in a + b {
      var i :| 0 <= i < |a| && a[i] == c;
      assert (a + b)[i] == c;
    }
    forall c | c in b ensures c in a + b {
      var i :| 0 <= i < |b| && b[i] == c;
      assert (a + b)[|a| + i] == c;
    }
  }

  lemma LineUnbrokenIff(option: string, value: string)
    requires Unbroken(option)
    ensures Unbroken(Line(option, value)) <==> Unbroken(value)
  {
    NoBreakInside("=", value);
    NoBreakInside(option, "=" + value);
  }

  lemma HeaderUnbroken()
    ensures forall line | line in HEADER :: Unbroken(line)
  {
    assert Unbroken("[mysqld]");
    LineUnbrokenIff("skip-name-resolve", "ON");
    LineUnbrokenIff("bind-address", "0.0.0.0");
    LineUnbrokenIff("log-bin", "mysql-bin");
    LineUnbrokenIff("binlog_format", "ROW");
    LineUnbrokenIff("gtid_mode", "ON");
    LineUnbrokenIff("enforce_gtid_consistency", "ON");
    LineUnbrokenIff("innodb_flush_log_at_trx_commit", "1");
    LineUnbrokenIff("sync_binlog", "1");
  }

  lemma FiveUnbrokenIff(lines: seq<string>)
    requires |lines| == 5
    ensures (forall line | line in lines :: Unbroken(line))
       <==> && Unbroken(lines[0]) && Unbroken(lines[1]) && Unbroken(lines[2])
            && Unbroken(lines[3]) && Unbroken(lines[4])
  {
    assert lines[0] in lines && lines[1] in lines && lines[2] in lines && lines[3] in lines && lines[4] in lines;
  }

  lemma HostUnbrokenIff(cluster: string)
    ensures Unbroken(Line("report_host", cluster)) <==> Unbroken(cluster)
  {
    LineUnbrokenIff("report_host", cluster);
  }

  lemma PrimaryLineUnbrokenIff(primary: string)
    ensures Unbroken(Line("# servicer_primary_cluster", primary)) <==> Unbroken(primary)
  {
    LineUnbrokenIff("# servicer_primary_cluster", primary);
  }

  lemma IntervalUnbrokenIff(interval: string)
    ensures Unbroken(Line("# servicer_failover_monitor_interval", FirstNonEmpty(interval, "10s")))
       <==> Unbroken(interval)
  {
    LineUnbrokenIff("# servicer_failover_monitor_interval", FirstNonEmpty(interval, "10s"));
  }

  lemma SwitchesUnbroken(on: bool)
    ensures Unbroken(Line("read_only", OnlyIf(on))) && Unbroken(Line("super_read_only", OnlyIf(on)))
  {
    LineUnbrokenIff("read_only", OnlyIf(on));
    LineUnbrokenIff("super_read_only", OnlyIf(on));
  }

  /** The mode's lines are unbroken exactly when the cluster names and the monitor interval in them are. */
  lemma ActivePassiveUnbrokenIff(context: Context, parameters: Parameters, role: string, cluster: string)
    requires ReplicationMode(context, parameters) == ACTIVE_PASSIVE
    ensures (forall line | line in ModeLines(context, parameters, role, cluster) :: Unbroken(line))
       <==> Unbroken(cluster) && Unbroken(PrimaryCluster(context, parameters)) && Unbroken(parameters.monitorInterval)
  {
    SwitchesUnbroken(role != "primary");
    HostUnbrokenIff(cluster);
    PrimaryLineUnbrokenIff(PrimaryCluster(context, parameters));
    IntervalUnbrokenIff(parameters.monitorInterval);
    FiveUnbrokenIff(ModeLines(context, parameters, role, cluster));
  }

  /** The text of an active-passive configuration reads back as the lines it was made of exactly when neither the
      cluster names nor the monitor interval in it hold a line break. */
  lemma ActivePassiveReadsBackIff(context: Context, parameters: Parameters, role: string, cluster: string)
    requires ReplicationMode(context, parameters) == ACTIVE_PASSIVE
    ensures Split('\n', Config(context, parameters, role, cluster))
         == ConfigLines(context, parameters, role, cluster) + [""]
       <==> Unbroken(cluster) && Unbroken(PrimaryCluster(context, parameters)) && Unbroken(parameters.monitorInterval)
  {
    LinesReadBackIff(ConfigLines(context, parameters, role, cluster));
    HeaderUnbroken();
    ActivePassiveUnbrokenIff(context, parameters, role, cluster);
    var mode := ModeLines(context, parameters, role, cluster);
    forall line ensures line in HEADER + mode <==> line in HEADER || line in mode {}
  }

  lemma {:induction false} JoinUnbroken(parts: seq<string>)
    requires forall part | part in parts :: Unbroken(part)
    ensures Unbroken(Join(",", parts))
  {
    if 1 < |parts| {
      JoinUnbroken(parts[1..]);
      assert Unbroken(parts[0]);
      NoBreakInside(parts[0], ",");
      NoBreakInside(parts[0] + ",", Join(",", parts[1..]));
    }
  }

  lemma PeersUnbroken(context: Context, parameters: Parameters)
    requires Unbroken(context.instance) && Unbroken(context.namespace)
    ensures Unbroken("gcomm://" + Join(",", GaleraPeers(context, parameters)))
  {
    JoinUnbroken(GaleraPeers(context, parameters));
  }

  lemma GaleraUnbroken(context: Context, parameters: Parameters, role: string, cluster: string)
    requires ReplicationMode(context, parameters) == GALERA && OneLiners(context, parameters)
    requires Unbroken(role) && Unbroken(cluster)
    ensures forall line | line in ModeLines(context, parameters, role, cluster) :: Unbroken(line)
  {
    PeersUnbroken(context, parameters);
    LineUnbrokenIff("wsrep_cluster_name", context.instance);
    LineUnbrokenIff("wsrep_cluster_address", "gcomm://" + Join(",", GaleraPeers(context, parameters)));
    NoBreakInside("-", role);
    NoBreakInside(cluster, "-" + role);
    LineUnbrokenIff("wsrep_node_name", cluster + ("-" + role));
    GaleraConstantsUnbroken();
    GaleraLastLinesUnbroken();
  }

  lemma GaleraConstantsUnbroken()
    ensures Unbroken(Line("wsrep_on", "ON")) && Unbroken(Line("wsrep_provider", "/usr/lib/galera/libgalera_smm.so"))
  {
    LineUnbrokenIff("wsrep_on", "ON");
    LineUnbrokenIff("wsrep_provider", "/usr/lib/galera/libgalera_smm.so");
  }

  lemma GaleraLastLinesUnbroken()
    ensures Unbroken(Line("wsrep_sst_method", "rsync")) && Unbroken(Line("default_storage_engine", "InnoDB"))
    ensures Unbroken(Line("innodb_autoinc_lock_mode", "2"))
  {
    LineUnbrokenIff("wsrep_sst_method", "rsync");
    LineUnbrokenIff("default_storage_engine", "InnoDB");
    LineUnbrokenIff("innodb_autoinc_lock_mode", "2");
  }

  lemma PlainUnbroken(context: Context, parameters: Parameters, role: string, cluster: string)
    requires ReplicationMode(context, parameters) != GALERA && ReplicationMode(context, parameters) != ACTIVE_PASSIVE
    ensures forall line | line in ModeLines(context, parameters, role, cluster) :: Unbroken(line)
  {
    LineUnbrokenIff("read_only", "OFF");
    LineUnbrokenIff("super_read_only", "OFF");
  }

  lemma RolesUnbroken(context: Context, parameters: Parameters, r: ClusterRole)
    requires r in ClusterRoles(context, parameters)
    ensures Unbroken(r.role)
  {
    assert r.role == "primary" || r.role == "peer" || r.role == "standby";
  }

  lemma ValuesDiffer()
    ensures TurnsOn("true") && !TurnsOn("false") && !TurnsOn("OFF")
  {
    assert "OFF"[0] == 'O' && |"OFF"| == 3 && "false"[0] == 'f';
  }

  /* What line breaks in names add. */

  /** The lines that begin at breaks within the lines. */
  function Breaks(lines: seq<string>): seq<string> {
    if lines == [] then [] else Split('\n', lines[0])[1..] + Breaks(lines[1..])
  }

  function Override(before: Option<string>, later: Option<string>): Option<string> {
    if later.Some? then later else before
  }

  /** Whether the cluster takes writes: its mode and role say so, unless a line that begins at a break sets read_only;
      of these the last counts. */
  predicate Writes(context: Context, parameters: Parameters, r: ClusterRole) {
    var late := ReadOnlySetting(Breaks(ModeLines(context, parameters, r.role, r.cluster)));
    if late.Some? then !TurnsOn(late.value)
    else ReplicationMode(context, parameters) != ACTIVE_PASSIVE || r.role == "primary"
  }

  lemma {:induction false} SettingOfBoth(lines: seq<string>, more: seq<string>)
    ensures ReadOnlySetting(lines + more) == Override(ReadOnlySetting(lines), ReadOnlySetting(more))
  {
    if more == [] {
      assert lines + more == lines;
    } else {
      var both := lines + more;
      assert both[..|both| - 1] == lines + more[..|more| - 1] && both[|both| - 1] == more[|more| - 1];
      SettingOfBoth(lines, more[..|more| - 1]);
    }
  }

  /** The first piece of a line that sets nothing sets nothing. */
  lemma FirstPieceIsSilent(line: string)
    requires Silent(line)
    ensures Split('\n', line) == [Split('\n', line)[0]] + Split('\n', line)[1..]
    ensures ReadOnlySetting([Split('\n', line)[0]]) == None
  {
    var first := Split('\n', line)[0];
    assert first == line[..FirstOf('\n', line)];
    assert Silent(first);
  }

  lemma {:induction false} SilentLinesSetBreaks(lines: seq<string>)
    requires forall line | line in lines :: Silent(line)
    ensures ReadOnlySetting(Pieces(lines)) == ReadOnlySetting(Breaks(lines))
  {
    if lines != [] {
      var first, rest := Split('\n', lines[0]), lines[1..];
      SilentLinesSetBreaks(rest);
      FirstPieceIsSilent(lines[0]);
      SettingOfBoth([first[0]], first[1..]);
      SettingOfBoth(first, Pieces(rest));
      SettingOfBoth(first[1..], Breaks(rest));
    }
  }

  lemma {:induction false} UnbrokenLinesAdd(lines: seq<string>)
    requires forall line | line in lines :: Unbroken(line)
    ensures Breaks(lines) == []
  {
    if lines != [] {
      assert Unbroken(lines[0]);
      NoneInside('\n', lines[0]);
      UnbrokenLinesAdd(lines[1..]);
    }
  }

  lemma HeaderPiecesSetNothing()
    ensures ReadOnlySetting(Pieces(HEADER)) == None
  {
    HeaderIsSilent();
    HeaderUnbroken();
    SilentLinesSetBreaks(HEADER);
    UnbrokenLinesAdd(HEADER);
  }

  lemma OwnLineUnbroken(value: string)
    requires value == "true" || value == "false" || value == "OFF"
    ensures Unbroken(Line("read_only", value))
  {
    LineUnbrokenIff("read_only", value);
  }

  /** A line that sets a value, followed by lines that set nothing by themselves. */
  lemma OwnThenSilentSet(value: string, rest: seq<string>)
    requires Unbroken(Line("read_only", value)) && forall line | line in rest :: Silent(line)
    ensures var lines := [Line("read_only", value)] + rest;
            ReadOnlySetting(Pieces(lines)) == Override(Some(value), ReadOnlySetting(Breaks(lines)))
  {
    var own := Line("read_only", value);
    var lines := [own] + rest;
    assert lines[0] == own && lines[1..] == rest;
    NoneInside('\n', own);
    LastLineSets([], value);
    assert [] + [own] == [own];
    SilentLinesSetBreaks(rest);
    SettingOfBoth([own], Pieces(rest));
    assert [own][1..] + Breaks(rest) == Breaks(rest);
  }

  lemma OwnLineIsFirst(context: Context, parameters: Parameters, role: string, cluster: string)
    requires ReplicationMode(context, parameters) != GALERA
    ensures var lines := ModeLines(context, parameters, role, cluster);
            lines == [Line("read_only", Intended(context, parameters, role).value)] + lines[1..]
  {
  }

  /** The mode's lines set what the mode and role say, unless a break sets something later. */
  lemma ModePiecesSet(context: Context, parameters: Parameters, role: string, cluster: string)
    ensures var lines := ModeLines(context, parameters, role, cluster);
            ReadOnlySetting(Pieces(lines))
            == Override(Intended(context, parameters, role), ReadOnlySetting(Breaks(lines)))
  {
    var lines := ModeLines(context, parameters, role, cluster);
    if ReplicationMode(context, parameters) == GALERA {
      GaleraIsSilent(context, parameters, role, cluster);
      SilentLinesSetBreaks(lines);
    } else {
      var value := Intended(context, parameters, role).value;
      OwnLineUnbroken(value);
      RestIsSilent(context, parameters, role, cluster);
      OwnLineIsFirst(context, parameters, role, cluster);
      OwnThenSilentSet(value, lines[1..]);
    }
  }

  lemma JoinedSets(header: seq<string>, mode: seq<string>)
    requires header != []
    ensures ReadOnlySetting(Split('\n', Join("\n", header + mode) + "\n"))
         == Override(ReadOnlySetting(Pieces(header)), ReadOnlySetting(Pieces(mode)))
  {
    LinesReadAsPieces(header + mode);
    PiecesAppend(header, mode);
    SilentLinesSetNothing(Pieces(header + mode), [""]);
    SettingOfBoth(Pieces(header), Pieces(mode));
  }

  /** What a server reads in the text of a configuration. */
  lemma TextSets(context: Context, parameters: Parameters, role: string, cluster: string)
    ensures ReadOnlySetting(Split('\n', Config(context, parameters, role, cluster)))
         == Override(Intended(context, parameters, role),
                     ReadOnlySetting(Breaks(ModeLines(context, parameters, role, cluster))))
  {
    JoinedSets(HEADER, ModeLines(context, parameters, role, cluster));
    HeaderPiecesSetNothing();
    ModePiecesSet(context, parameters, role, cluster);
  }

  lemma WritableIff(context: Context, parameters: Parameters, r: ClusterRole)
    ensures Writable(Config(context, parameters, r.role, r.cluster)) <==> Writes(context, parameters, r)
  {
    TextSets(context, parameters, r.role, r.cluster);
    ValuesDiffer();
  }

  lemma WritersAre(context: Context, parameters: Parameters, r: ClusterRole)
    requires r in ClusterRoles(context, parameters)
    ensures r.cluster in Writers(context, parameters) <==> Writes(context, parameters, r)
  {
    var roles := ClusterRoles(context, parameters);
    ClustersDifferWithOnePrimary(context, parameters);
    WritableIff(context, parameters, r);
    if r.cluster in Writers(context, parameters) {
      var other :| other in roles && Writable(Config(context, parameters, other.role, other.cluster))
                   && other.cluster == r.cluster;
      assert other == r;
    }
  }

  /** For all parameters, the primary is the one cluster that accepts writes exactly when mode and role, with what line
      breaks in names and monitor interval add, let the primary alone write. */
  lemma OneWriterIff(context: Context, parameters: Parameters)
    ensures Writers(context, parameters) == {PrimaryCluster(context, parameters)}
       <==> forall r | r in ClusterRoles(context, parameters) :: Writes(context, parameters, r) <==> r.role == "primary"
  {
    var roles, primary := ClusterRoles(context, parameters), PrimaryCluster(context, parameters);
    ClustersDifferWithOnePrimary(context, parameters);
    forall r | r in roles
      ensures r.cluster in Writers(context, parameters) <==> Writes(context, parameters, r)
      ensures r.cluster == primary <==> r.role == "primary"
    {
      WritersAre(context, parameters, r);
      var i :| 0 <= i < |roles| && roles[i] == r;
      assert roles[0].cluster == primary;
    }
    assert roles[0] in roles && roles[0].cluster == primary;
  }

  lemma ModeLinesUnbroken(context: Context, parameters: Parameters, r: ClusterRole)
    requires OneLiners(context, parameters) && r in ClusterRoles(context, parameters)
    ensures forall line | line in ModeLines(context, parameters, r.role, r.cluster) :: Unbroken(line)
  {
    var primary := ClusterRoles(context, parameters)[0];
    assert primary in ClusterRoles(context, parameters) && primary.cluster == PrimaryCluster(context, parameters);
    if ReplicationMode(context, parameters) == ACTIVE_PASSIVE {
      ActivePassiveUnbrokenIff(context, parameters, r.role, r.cluster);
    } else if ReplicationMode(context, parameters) == GALERA {
      RolesUnbroken(context, parameters, r);
      GaleraUnbroken(context, parameters, r.role, r.cluster);
    } else {
      PlainUnbroken(context, parameters, r.role, r.cluster);
    }
  }

  /** Where nothing that is written holds a line break, the primary always accepts writes, and it is the only one that
      does exactly when the mode is active-passive or nothing else is rendered. */
  lemma UnbrokenOneWriterIff(context: Context, parameters: Parameters)
    requires OneLiners(context, parameters)
    ensures PrimaryCluster(context, parameters) in Writers(context, parameters)
    ensures Writers(context, parameters) == {PrimaryCluster(context, parameters)}
       <==> ReplicationMode(context, parameters) == ACTIVE_PASSIVE || |ClusterRoles(context, parameters)| == 1
  {
    var roles := ClusterRoles(context, parameters);
    ClustersDifferWithOnePrimary(context, parameters);
    forall r | r in roles
      ensures Writes(context, parameters, r)
         <==> ReplicationMode(context, parameters) != ACTIVE_PASSIVE || r.role == "primary"
    {
      ModeLinesUnbroken(context, parameters, r);
      UnbrokenLinesAdd(ModeLines(context, parameters, r.role, r.cluster));
    }
    assert roles[0] in roles;
    WritersAre(context, parameters, roles[0]);
    OneWriterIff(context, parameters);
    if ReplicationMode(context, parameters) != ACTIVE_PASSIVE && 1 < |roles| {
      assert roles[1] in roles;
    }
  }

  lemma PlainWrites(context: Context, parameters: Parameters, r: ClusterRole)
    requires ReplicationMode(context, parameters) != GALERA && ReplicationMode(context, parameters) != ACTIVE_PASSIVE
    ensures Writes(context, parameters, r)
  {
    PlainUnbroken(context, parameters, r.role, r.cluster);
    UnbrokenLinesAdd(ModeLines(context, parameters, r.role, r.cluster));
  }

  /** An accepted service that is not a Galera cluster has the primary as its one writer, except in active-passive mode
      where breaks say otherwise. */
  lemma AcceptedServicesHaveOneWriterIff(context: Context, parameters: Parameters)
    requires ModeAccepted(context, parameters) && ReplicationMode(context, parameters) != GALERA
    ensures Writers(context, parameters) == {PrimaryCluster(context, parameters)}
       <==> (ReplicationMode(context, parameters) == ACTIVE_PASSIVE ==>
               forall r | r in ClusterRoles(context, parameters) ::
                 Writes(context, parameters, r) <==> r.role == "primary")
  {
    OneWriterIff(context, parameters);
    if ReplicationMode(context, parameters) != ACTIVE_PASSIVE {
      var primary := ClusterRoles(context, parameters)[0];
      assert ClusterRoles(context, parameters) == [primary];
      PlainWrites(context, parameters, primary);
    }
  }

  lemma {:induction false} BreaksAppend(lines: seq<string>, line: string)
    ensures Breaks(lines + [line]) == Breaks(lines) + Split('\n', line)[1..]
  {
    var more := lines + [line];
    if lines == [] {
      assert more[1..] == [] && more[0] == line;
      assert Split('\n', line)[1..] + [] == [] + Split('\n', line)[1..];
    } else {
      assert more[1..] == lines[1..] + [line];
      BreaksAppend(lines[1..], line);
    }
  }

  lemma BreakSets(option: string, name: string)
    ensures ReadOnlySetting(Split('\n', Line(option, name + "\n" + Line("read_only", "true")))[1..]) == Some("true")
  {
    var start, setting := Line(option, name), Line("read_only", "true");
    OwnLineUnbroken("true");
    Continued(option, name, setting);
    SplitLast('\n', start, setting);
    LastLineSets(Split('\n', start)[1..], "true");
  }

  lemma Continued(option: string, name: string, more: string)
    ensures Line(option, name + "\n" + more) == Line(option, name) + ['\n'] + more
  {
  }

  lemma UnbrokenLineAdds(lines: seq<string>, line: string)
    requires Unbroken(line)
    ensures Breaks(lines + [line]) == Breaks(lines)
  {
    BreaksAppend(lines, line);
    NoneInside('\n', line);
    assert [line][1..] == [];
  }

  lemma BrokenLineCounts(lines: seq<string>, line: string)
    requires ReadOnlySetting(Split('\n', line)[1..]).Some?
    ensures ReadOnlySetting(Breaks(lines + [line])) == ReadOnlySetting(Split('\n', line)[1..])
  {
    BreaksAppend(lines, line);
    SettingOfBoth(Breaks(lines), Split('\n', line)[1..]);
  }

  /** What the last line but one adds counts if the last one adds nothing. */
  lemma LastBreaksCount(before: seq<string>, broken: string, last: string)
    requires Unbroken(last) && ReadOnlySetting(Split('\n', broken)[1..]).Some?
    ensures ReadOnlySetting(Breaks(before + [broken] + [last])) == ReadOnlySetting(Split('\n', broken)[1..])
  {
    BrokenLineCounts(before, broken);
    UnbrokenLineAdds(before + [broken], last);
  }

  /** A primary whose name goes on after a line break with a setting is read as that setting. */
  lemma BrokenPrimaryDoesNotWrite(context: Context, parameters: Parameters, name: string)
    requires ReplicationMode(context, parameters) == ACTIVE_PASSIVE && Unbroken(parameters.monitorInterval)
    requires PrimaryCluster(context, parameters) == name + "\n" + Line("read_only", "true")
    ensures PrimaryCluster(context, parameters) !in Writers(context, parameters)
  {
    var primary := ClusterRoles(context, parameters)[0];
    var lines := ModeLines(context, parameters, primary.role, primary.cluster);
    var before, broken, last := [lines[0], lines[1], lines[2]], lines[3], lines[4];
    assert lines == before + [broken] + [last];
    IntervalUnbrokenIff(parameters.monitorInterval);
    BreakSets("# servicer_primary_cluster", name);
    LastBreaksCount(before, broken, last);
    WritersAre(context, parameters, primary);
  }

  /* ---------- Where artifacts go ---------- */

  function PackagePath(context: Context, cluster: string): string {
    "clusters/" + cluster + PackageSuffix(context)
  }

  function PackageSuffix(context: Context): string {
    "/tenants/" + context.tenant + "/projects/" + context.project + "/services/" + context.instance
  }

  function ArtifactNames(parameters: Parameters): seq<string> {
    ["namespace.yaml", "service.yaml", "headless-service.yaml", "read-service.yaml", "configmap.yaml",
     "statefulset.yaml"]
    + if parameters.backupProfile != "" then ["backup-pvc.yaml", "backup-cronjob.yaml"] else []
  }

  function ArtifactPath(basePath: string, name: string): string {
    basePath + "/" + name
  }

  function ClusterPaths(context: Context, parameters: Parameters, cluster: string): seq<string> {
    var names := ArtifactNames(parameters);
    seq(|names|, i requires 0 <= i < |names| => ArtifactPath(PackagePath(context, cluster), names[i]))
  }

  function AllPaths(context: Context, parameters: Parameters, roles: seq<ClusterRole>): seq<string> {
    if roles == [] then []
    else
      AllPaths(context, parameters, roles[..|roles| - 1])
      + ClusterPaths(context, parameters, roles[|roles| - 1].cluster)
  }

  method RenderClusterPaths(context: Context, parameters: Parameters, cluster: string) returns (paths: seq<string>)
    ensures paths == ClusterPaths(context, parameters, cluster)
  {
    var basePath := PackagePath(context, cluster);
    var names := ArtifactNames(parameters);
    paths := [];
    for i := 0 to |names|
      invariant |paths| == i && forall k | 0 <= k < i :: paths[k] == ArtifactPath(basePath, names[k])
    {
      paths := paths + [ArtifactPath(basePath, names[i])];
    }
  }

  method RenderPaths(context: Context, parameters: Parameters) returns (paths: seq<string>)
    ensures paths == AllPaths(context, parameters, ClusterRoles(context, parameters))
  {
    var roles := RenderClusterRoles(context, parameters);
    paths := [];
    for i := 0 to |roles|
      invariant paths == AllPaths(context, parameters, roles[..i])
    {
      assert roles[..i + 1][..i] == roles[..i];
      var clusterPaths := RenderClusterPaths(context, parameters, roles[i].cluster);
      paths := paths + clusterPaths;
    }
    assert roles[..|roles|] == roles;
  }

  ghost predicate NoSlash(s: string) {
    '/' !in s
  }

  lemma FirstNamesHaveNoSlash()
    ensures NoSlash("namespace.yaml") && NoSlash("service.yaml") && NoSlash("headless-service.yaml")
  {
  }

  lemma MiddleNamesHaveNoSlash()
    ensures NoSlash("read-service.yaml") && NoSlash("configmap.yaml") && NoSlash("statefulset.yaml")
  {
  }

  lemma BackupNamesHaveNoSlash()
    ensures NoSlash("backup-pvc.yaml") && NoSlash("backup-cronjob.yaml")
  {
  }

  lemma NamesHaveNoSlash(parameters: Parameters)
    ensures forall i | 0 <= i < |ArtifactNames(parameters)| :: NoSlash(ArtifactNames(parameters)[i])
  {
    FirstNamesHaveNoSlash();
    MiddleNamesHaveNoSlash();
    BackupNamesHaveNoSlash();
  }

  /** Only two of the names are equally long, and those differ in their first letter. */
  lemma NamesAreDistinct(parameters: Parameters)
    ensures Distinct(ArtifactNames(parameters))
  {
    var names := ArtifactNames(parameters);
    var lengths := [14, 12, 21, 17, 14, 16, 15, 19];
    assert forall i | 0 <= i < |names| :: |names[i]| == lengths[i];
    assert names[0][0] == 'n' && names[4][0] == 'c';
  }

  /** The last slash separates the name, so two artifact paths are equal only if both parts are. */
  lemma PathSplits(base: string, base': string, name: string, name': string)
    requires NoSlash(name) && NoSlash(name') && ArtifactPath(base, name) == ArtifactPath(base', name')
    ensures base == base' && name == name'
  {
    var path, path' := ArtifactPath(base, name), ArtifactPath(base', name');
    assert path[|base|] == '/' && path'[|base'|] == '/';
    assert forall i | |base| < i < |path| :: path[i] == name[i - |base| - 1];
    assert forall i | |base'| < i < |path'| :: path'[i] == name'[i - |base'| - 1];
    assert |base| == |base'|;
    assert base == path[..|base|] && base' == path'[..|base|];
    assert name == path[|base| + 1..] && name' == path'[|base| + 1..];
  }

  lemma PackagesDiffer(context: Context, cluster: string, cluster': string)
    requires PackagePath(context, cluster) == PackagePath(context, cluster')
    ensures cluster == cluster'
  {
    var path, path' := PackagePath(context, cluster), PackagePath(context, cluster');
    assert |cluster| == |cluster'|;
    assert cluster == path[9..9 + |cluster|] && cluster' == path'[9..9 + |cluster|];
  }

  lemma ClusterPathsDiffer(context: Context, parameters: Parameters, cluster: string, cluster': string, i: nat, j: nat)
    requires i < |ArtifactNames(parameters)| && j < |ArtifactNames(parameters)|
    requires ClusterPaths(context, parameters, cluster)[i] == ClusterPaths(context, parameters, cluster')[j]
    ensures cluster == cluster' && i == j
  {
    NamesAreDistinct(parameters);
    NamesHaveNoSlash(parameters);
    var names := ArtifactNames(parameters);
    PathSplits(PackagePath(context, cluster), PackagePath(context, cluster'), names[i], names[j]);
    PackagesDiffer(context, cluster, cluster');
  }

  lemma {:induction false} PathsComeFromClusters(context: Context, parameters: Parameters, roles: seq<ClusterRole>)
    ensures forall path | path in AllPaths(context, parameters, roles) ::
              exists r | r in roles :: path in ClusterPaths(context, parameters, r.cluster)
  {
    if roles != [] {
      var rest, last := roles[..|roles| - 1], roles[|roles| - 1];
      PathsComeFromClusters(context, parameters, rest);
      assert last in roles && forall r | r in rest :: r in roles;
    }
  }

  lemma {:induction false} DistinctClustersDistinctPaths(context: Context, parameters: Parameters,
                                                         roles: seq<ClusterRole>)
    requires forall i, j | 0 <= i < j < |roles| :: roles[i].cluster != roles[j].cluster
    ensures Distinct(AllPaths(context, parameters, roles))
  {
    if roles != [] {
      var rest, last := roles[..|roles| - 1], roles[|roles| - 1];
      DistinctClustersDistinctPaths(context, parameters, rest);
      PathsComeFromClusters(context, parameters, rest);
      var before, more := AllPaths(context, parameters, rest), ClusterPaths(context, parameters, last.cluster);
      forall i, j | 0 <= i < |before| && 0 <= j < |more| ensures before[i] != more[j] {
        if before[i] == more[j] {
          assert before[i] in before;
          var r :| r in rest && before[i] in ClusterPaths(context, parameters, r.cluster);
          var k :| 0 <= k < |ClusterPaths(context, parameters, r.cluster)|
              && ClusterPaths(context, parameters, r.cluster)[k] == before[i];
          ClusterPathsDiffer(context, parameters, r.cluster, last.cluster, k, j);
        }
      }
      forall i, j | 0 <= i < j < |more| ensures more[i] != more[j] {
        if more[i] == more[j] {
          ClusterPathsDiffer(context, parameters, last.cluster, last.cluster, i, j);
        }
      }
    }
  }

  /** No two artifacts of a render share a path, whatever the cluster names are. */
  lemma NoTwoArtifactsSharePath(context: Context, parameters: Parameters)
    ensures Distinct(AllPaths(context, parameters, ClusterRoles(context, parameters)))
  {
    ClustersDifferWithOnePrimary(context, parameters);
    DistinctClustersDistinctPaths(context, parameters, ClusterRoles(context, parameters));
  }
}
