/** Which object store an instance uses, and whether the Role lets it. */
module Routing {
  import opened Prelude
  import opened TextOrder
  import RoleSpecs
  import RbacConvergence
  import RbacSystem

  const PLUGIN_NAME := "barman-cloud.cloudnative-pg.io"

  type Parameters = map<string, string>

  /** The parameters may be absent, which is not the same as empty. */
  datatype Plugin = Plugin(name: string, enabled: bool, given: Option<Parameters>) {
    function Parameters(): Parameters {
      if given.Some? then given.value else map[]
    }
  }

  datatype ExternalCluster = ExternalCluster(name: string, plugin: Option<Plugin>)

  datatype Cluster = Cluster(
    name: string,
    namespace: string,
    currentPrimary: string,
    plugins: seq<Plugin>,
    externalClusters: seq<ExternalCluster>,
    recoverySource: string,
    replicaSource: string)

  /** A store and the server whose files are looked up in it. */
  datatype Source = Source(objectName: string, serverName: string)

  datatype Configuration = Configuration(backup: Source, recovery: Source, replica: Source)

  datatype Key = Key(namespace: string, name: string)

  function ValueOf(parameters: Parameters, key: string): string {
    if key in parameters then parameters[key] else ""
  }

  // ---------------------------------------------------------------- the configuration of a Cluster

  /** `i` is the last of the first `n` entries that satisfies the condition, or -1. */
  ghost predicate IsLastOf(plugins: seq<Plugin>, n: nat, holds: Plugin -> bool, i: int)
    requires n <= |plugins|
  {
    && -1 <= i < n
    && (i >= 0 ==> holds(plugins[i]))
    && forall j :: i < j < n ==> !holds(plugins[j])
  }

  ghost predicate IsLast(plugins: seq<Plugin>, holds: Plugin -> bool, i: int) {
    IsLastOf(plugins, |plugins|, holds, i)
  }

  /** The plugin's entry: the last one of its name, enabled or not. */
  predicate Ours(p: Plugin) {
    p.name == PLUGIN_NAME
  }

  /** An entry that sets the server name: it has to be enabled. */
  predicate SetsServer(p: Plugin) {
    p.enabled && Ours(p) && "serverName" in p.Parameters()
  }

  function ExternalPlugin(clusters: seq<ExternalCluster>, source: string): Option<Plugin> {
    if clusters == [] then None
    else if clusters[0].name == source then clusters[0].plugin
    else ExternalPlugin(clusters[1..], source)
  }

  /** The store of an external cluster that uses this plugin; its server name defaults to the Cluster's name. */
  function SourceOf(cluster: Cluster, source: string): Source {
    var plugin := if source == "" then None else ExternalPlugin(cluster.externalClusters, source);
    if plugin.None? || !Ours(plugin.value) || plugin.value.given.None? then Source("", "")
    else
      var server := ValueOf(plugin.value.Parameters(), "serverName");
      Source(ValueOf(plugin.value.Parameters(), "barmanObjectName"), if server == "" then cluster.name else server)
  }

  ghost predicate Configures(cluster: Cluster, c: Configuration) {
    && c.recovery == SourceOf(cluster, cluster.recoverySource)
    && c.replica == SourceOf(cluster, cluster.replicaSource)
    && (forall i :: IsLast(cluster.plugins, Ours, i) ==>
          c.backup.objectName == if i < 0 then "" else ValueOf(cluster.plugins[i].Parameters(), "barmanObjectName"))
    && (forall i :: IsLast(cluster.plugins, SetsServer, i) ==>
          c.backup.serverName == if i < 0 then cluster.name else cluster.plugins[i].Parameters()["serverName"])
  }

  /** The parameters and the index of the plugin's entry. */
  method NewPlugin(cluster: Cluster) returns (parameters: Parameters, index: int)
    ensures IsLast(cluster.plugins, Ours, index)
    ensures parameters == if index < 0 then map[] else cluster.plugins[index].Parameters()
  {
    parameters, index := map[], -1;
    for i := 0 to |cluster.plugins|
      invariant IsLastOf(cluster.plugins, i, Ours, index)
      invariant parameters == if index < 0 then map[] else cluster.plugins[index].Parameters()
    {
      if cluster.plugins[i].name == PLUGIN_NAME {
        parameters, index := cluster.plugins[i].Parameters(), i;
      }
    }
  }

  method NewFromCluster(cluster: Cluster) returns (c: Configuration)
    ensures Configures(cluster, c)
  {
    hide SourceOf;
    var parameters, own := NewPlugin(cluster);
    var serverName := cluster.name;
    ghost var setter := -1;
    for i := 0 to |cluster.plugins|
      invariant IsLastOf(cluster.plugins, i, SetsServer, setter)
      invariant serverName == if setter < 0 then cluster.name else cluster.plugins[setter].Parameters()["serverName"]
    {
      var plugin := cluster.plugins[i];
      if plugin.enabled && plugin.name == PLUGIN_NAME {
        if "serverName" in plugin.Parameters() {
          serverName := plugin.Parameters()["serverName"];
          setter := i;
        }
      }
    }
    c := Configuration(
      Source(ValueOf(parameters, "barmanObjectName"), serverName),
      SourceOf(cluster, cluster.recoverySource),
      SourceOf(cluster, cluster.replicaSource));
    LastUnique(cluster.plugins, Ours, own);
    LastUnique(cluster.plugins, SetsServer, setter);
  }

  lemma LastUnique(plugins: seq<Plugin>, holds: Plugin -> bool, i: int)
    requires IsLast(plugins, holds, i)
    ensures forall j :: IsLast(plugins, holds, j) ==> j == i
  {
  }

  lemma {:induction false} LastExists(plugins: seq<Plugin>, holds: Plugin -> bool) returns (i: int)
    ensures IsLast(plugins, holds, i)
  {
    if plugins == [] {
      i := -1;
    } else {
      var n := |plugins| - 1;
      if holds(plugins[n]) {
        i := n;
      } else {
        i := LastExists(plugins[..n], holds);
        assert forall j :: 0 <= j < n ==> plugins[..n][j] == plugins[j];
      }
    }
  }

  /** A Cluster has exactly one configuration. */
  lemma ConfigurationUnique(cluster: Cluster, a: Configuration, b: Configuration)
    requires Configures(cluster, a) && Configures(cluster, b)
    ensures a == b
  {
    var own := LastExists(cluster.plugins, Ours);
    var setter := LastExists(cluster.plugins, SetsServer);
  }

  /**
   * With one entry for the plugin, the store name is read from it even if it is disabled. The server
   * name follows the same entry exactly when the entry is enabled or does not ask for another name.
   */
  lemma SameEntryExactly(cluster: Cluster, c: Configuration, i: nat)
    requires Configures(cluster, c) && i < |cluster.plugins| && Ours(cluster.plugins[i])
    requires forall j :: 0 <= j < |cluster.plugins| && j != i ==> !Ours(cluster.plugins[j])
    ensures var p := cluster.plugins[i].Parameters();
            var wanted := if "serverName" in p then p["serverName"] else cluster.name;
            && c.backup.objectName == ValueOf(p, "barmanObjectName")
            && (c.backup.serverName == wanted <==> cluster.plugins[i].enabled || wanted == cluster.name)
  {
    assert IsLast(cluster.plugins, Ours, i);
    var setter := LastExists(cluster.plugins, SetsServer);
    assert setter >= 0 ==> setter == i;
    if SetsServer(cluster.plugins[i]) { assert setter >= i; }
  }

  // ---------------------------------------------------------------- object stores referred to

  function ReferredNames(c: Configuration): set<string> {
    {c.backup.objectName, c.recovery.objectName, c.replica.objectName} - {""}
  }

  ghost function Referred(c: Configuration): seq<string> {
    SortedList(ReferredNames(c))
  }

  method GetReferredBarmanObjectsKey(cluster: Cluster, c: Configuration) returns (keys: seq<Key>)
    ensures |keys| == |Referred(c)|
    ensures forall i :: 0 <= i < |keys| ==> keys[i] == Key(cluster.namespace, Referred(c)[i])
  {
    var names: set<string> := {};
    if |c.backup.objectName| > 0 { names := names + {c.backup.objectName}; }
    if |c.recovery.objectName| > 0 { names := names + {c.recovery.objectName}; }
    if |c.replica.objectName| > 0 { names := names + {c.replica.objectName}; }
    assert names == ReferredNames(c);
    var sorted := ToSortedList(names);
    keys := [];
    for i := 0 to |sorted|
      invariant |keys| == i
      invariant forall j :: 0 <= j < i ==> keys[j] == Key(cluster.namespace, sorted[j])
    {
      keys := keys + [Key(cluster.namespace, sorted[i])];
    }
  }

  // ---------------------------------------------------------------- the store to restore from

  function ResolveRestoreObjectStore(c: Configuration, primary: string, instance: string): Source {
    if primary == instance && c.replica.objectName != "" then c.replica
    else if primary == "" then c.recovery
    else c.backup
  }

  /** The first external cluster of a name. */
  predicate IsFirstNamed(clusters: seq<ExternalCluster>, name: string, i: nat) {
    i < |clusters| && clusters[i].name == name && forall j :: 0 <= j < i ==> clusters[j].name != name
  }

  lemma {:induction false} ExternalPluginIs(clusters: seq<ExternalCluster>, name: string, i: nat)
    requires IsFirstNamed(clusters, name, i)
    ensures ExternalPlugin(clusters, name) == clusters[i].plugin
  {
    if i > 0 {
      assert forall j :: 0 <= j < |clusters[1..]| ==> clusters[1..][j] == clusters[j + 1];
      ExternalPluginIs(clusters[1..], name, i - 1);
    }
  }

  /** External cluster `i` is the one of this name, and it uses this plugin with these parameters. */
  predicate UsesPlugin(cluster: Cluster, name: string, i: nat, parameters: Parameters) {
    && name != "" && IsFirstNamed(cluster.externalClusters, name, i)
    && cluster.externalClusters[i].plugin.Some?
    && cluster.externalClusters[i].plugin.value.name == "barman-cloud.cloudnative-pg.io"
    && cluster.externalClusters[i].plugin.value.given == Some(parameters)
  }

  /** The store of these parameters, and their server or else the Cluster itself. */
  predicate SetBy(cluster: Cluster, source: Source, parameters: Parameters) {
    && source.objectName == (if "barmanObjectName" in parameters then parameters["barmanObjectName"] else "")
    && source.serverName ==
       (if "serverName" in parameters && parameters["serverName"] != "" then parameters["serverName"] else cluster.name)
  }

  lemma SourceIsSet(cluster: Cluster, name: string, i: nat, parameters: Parameters)
    requires UsesPlugin(cluster, name, i, parameters)
    ensures SetBy(cluster, SourceOf(cluster, name), parameters)
  {
    ExternalPluginIs(cluster.externalClusters, name, i);
  }

  /** Before there is a primary, an instance restores from the recovery source. */
  lemma BootstrapIsRouted(cluster: Cluster, c: Configuration, instance: string, i: nat, parameters: Parameters)
    requires Configures(cluster, c) && cluster.currentPrimary == "" && instance != ""
    requires UsesPlugin(cluster, cluster.recoverySource, i, parameters)
    ensures SetBy(cluster, ResolveRestoreObjectStore(c, cluster.currentPrimary, instance), parameters)
  {
    SourceIsSet(cluster, cluster.recoverySource, i, parameters);
  }

  /**
   * Everyone but the primary restores from the store of the last entry of the plugin, with the server
   * of the last enabled entry that sets one, or else the Cluster itself.
   */
  lemma StandbyIsRouted(cluster: Cluster, c: Configuration, instance: string, own: int, setter: int)
    requires Configures(cluster, c) && cluster.currentPrimary != "" && instance != cluster.currentPrimary
    requires -1 <= own < |cluster.plugins| && -1 <= setter < |cluster.plugins|
    requires own >= 0 ==> cluster.plugins[own].name == "barman-cloud.cloudnative-pg.io"
    requires forall j :: own < j < |cluster.plugins| ==> cluster.plugins[j].name != "barman-cloud.cloudnative-pg.io"
    requires setter >= 0 ==>
               && cluster.plugins[setter].name == "barman-cloud.cloudnative-pg.io" && cluster.plugins[setter].enabled
               && "serverName" in cluster.plugins[setter].Parameters()
    requires forall j :: setter < j < |cluster.plugins| ==>
               !(cluster.plugins[j].name == "barman-cloud.cloudnative-pg.io" && cluster.plugins[j].enabled &&
                 "serverName" in cluster.plugins[j].Parameters())
    ensures var source := ResolveRestoreObjectStore(c, cluster.currentPrimary, instance);
            && source == c.backup
            && source.objectName ==
               (if own >= 0 && "barmanObjectName" in cluster.plugins[own].Parameters()
                then cluster.plugins[own].Parameters()["barmanObjectName"] else "")
            && source.serverName ==
               (if setter >= 0 then cluster.plugins[setter].Parameters()["serverName"] else cluster.name)
  {
    assert IsLast(cluster.plugins, Ours, own);
    assert IsLast(cluster.plugins, SetsServer, setter);
  }

  /** The primary restores from the replica source if that names a store, and else as a standby does. */
  lemma PrimaryIsRouted(cluster: Cluster, c: Configuration, standby: string, i: nat, parameters: Parameters)
    requires Configures(cluster, c) && cluster.currentPrimary != "" && standby != cluster.currentPrimary
    ensures var own := ResolveRestoreObjectStore(c, cluster.currentPrimary, cluster.currentPrimary);
            var other := ResolveRestoreObjectStore(c, cluster.currentPrimary, standby);
            && (UsesPlugin(cluster, cluster.replicaSource, i, parameters) ==>
                  if "barmanObjectName" in parameters && parameters["barmanObjectName"] != ""
                  then SetBy(cluster, own, parameters) else own == other)
            && ((forall j, ps :: !UsesPlugin(cluster, cluster.replicaSource, j, ps)) ==> own == other)
  {
    if UsesPlugin(cluster, cluster.replicaSource, i, parameters) {
      SourceIsSet(cluster, cluster.replicaSource, i, parameters);
    }
    if c.replica.objectName != "" { SourceHasEntry(cluster, cluster.replicaSource); }
  }

  lemma SourceHasEntry(cluster: Cluster, name: string)
    requires SourceOf(cluster, name).objectName != ""
    ensures exists i: nat, parameters :: UsesPlugin(cluster, name, i, parameters)
  {
    var i := FirstNamed(cluster.externalClusters, name);
    ExternalPluginIs(cluster.externalClusters, name, i);
    assert UsesPlugin(cluster, name, i, cluster.externalClusters[i].plugin.value.given.value);
  }

  lemma {:induction false} FirstNamed(clusters: seq<ExternalCluster>, name: string) returns (i: nat)
    requires ExternalPlugin(clusters, name).Some?
    ensures IsFirstNamed(clusters, name, i)
  {
    i := 0;
    if clusters[0].name != name {
      i := FirstNamed(clusters[1..], name);
      assert forall j :: 0 <= j < |clusters[1..]| ==> clusters[1..][j] == clusters[j + 1];
      i := i + 1;
      assert forall j :: 0 <= j < i ==> clusters[j].name != name by {
        forall j | 0 <= j < i ensures clusters[j].name != name {
          if j > 0 { assert clusters[1..][j - 1] == clusters[j]; }
        }
      }
    }
  }

  /** Every instance finds a store, whoever is primary, exactly when backup and recovery both name one. */
  lemma AlwaysRoutedExactly(c: Configuration)
    ensures (forall primary, instance :: ResolveRestoreObjectStore(c, primary, instance).objectName != "") <==>
            c.backup.objectName != "" && c.recovery.objectName != ""
  {
    if c.recovery.objectName == "" { assert ResolveRestoreObjectStore(c, "", "pg-1").objectName == ""; }
    if c.backup.objectName == "" { assert ResolveRestoreObjectStore(c, "pg-1", "pg-2").objectName == ""; }
  }

  /** The stores referred to are exactly those some instance may restore from, depending on who is primary. */
  lemma ReferredExactly(c: Configuration, name: string)
    requires name != ""
    ensures name in Referred(c) <==>
            exists primary, instance :: ResolveRestoreObjectStore(c, primary, instance).objectName == name
  {
    assert name in Referred(c) <==> name in Elements(Referred(c));
    assert ResolveRestoreObjectStore(c, "", "pg-1") == c.recovery;
    assert ResolveRestoreObjectStore(c, "pg-1", "pg-2") == c.backup;
    if name == c.replica.objectName { assert ResolveRestoreObjectStore(c, "pg-1", "pg-1").objectName == name; }
  }

  // ---------------------------------------------------------------- permissions

  predicate Reads(verbs: seq<string>) {
    "get" in verbs && "watch" in verbs && "list" in verbs
  }

  /** The names a rule list lets its holder read, update the status of, and the secrets it lets it read. */
  ghost predicate Grants(rules: seq<RoleSpecs.PolicyRule>, store: RoleSpecs.ObjectStore) {
    && (exists r :: r in rules && r.apiGroups == ["barmancloud.cnpg.io"] && r.resources == ["objectstores"] &&
                    Reads(r.verbs) && store.name in r.resourceNames)
    && (exists r :: r in rules && r.apiGroups == ["barmancloud.cnpg.io"] && r.resources == ["objectstores/status"] &&
                    "update" in r.verbs && store.name in r.resourceNames)
    && (forall secret :: secret in RoleSpecs.SecretNames(store.credentials) ==>
          exists r :: r in rules && r.apiGroups == [""] && r.resources == ["secrets"] &&
                      Reads(r.verbs) && secret in r.resourceNames)
  }

  /** The built rules grant everything about each of their stores. */
  lemma BuiltRulesGrant(stores: seq<RoleSpecs.ObjectStore>, store: RoleSpecs.ObjectStore)
    requires store in stores
    ensures Grants(RoleSpecs.RoleRules(stores), store)
  {
    var rules := RoleSpecs.RoleRules(stores);
    var names, secrets := SortedList(RoleSpecs.StoreNames(stores)), SortedList(RoleSpecs.AllSecrets(stores));
    assert store.name in Elements(names);
    assert rules[0] in rules && rules[1] in rules && rules[2] in rules;
    assert rules[0].resourceNames == names && rules[1].resourceNames == names && rules[2].resourceNames == secrets;
    forall secret | secret in RoleSpecs.SecretNames(store.credentials) ensures secret in rules[2].resourceNames {
      assert secret in Elements(secrets);
    }
  }

  /**
   * The rules the Pre hook aims at let an instance use whichever existing store it is sent to, and
   * list no store that no instance could be sent to.
   */
  lemma RoutedIsGranted(c: Configuration, stores: RbacSystem.Stores, primary: string, instance: string)
    requires RbacConvergence.WellNamed(stores)
    ensures var name := ResolveRestoreObjectStore(c, primary, instance).objectName;
            name != "" && name in stores ==> Grants(RbacConvergence.Target(Referred(c), stores), stores[name])
    ensures forall name :: name in RoleSpecs.ObjectStoreNames(RbacConvergence.Target(Referred(c), stores)) ==>
              name in stores &&
              exists p, i :: ResolveRestoreObjectStore(c, p, i).objectName == name
  {
    hide RbacConvergence.Existing;
    hide Grants;
    hide SortedList;
    var existing := RbacConvergence.Existing(Referred(c), stores);
    var name := ResolveRestoreObjectStore(c, primary, instance).objectName;
    if name != "" && name in stores {
      ReferredExactly(c, name);
      RbacConvergence.ExistingExactly(Referred(c), stores, stores[name]);
      BuiltRulesGrant(existing, stores[name]);
    }
    RoleSpecs.NamesOfBuiltRules(existing);
    var listed := RoleSpecs.ObjectStoreNames(RbacConvergence.Target(Referred(c), stores));
    forall n | n in listed
      ensures n in stores && exists p, i :: ResolveRestoreObjectStore(c, p, i).objectName == n
    {
      assert n in Elements(listed);
      var s :| s in existing && s.name == n;
      RbacConvergence.ExistingExactly(Referred(c), stores, s);
      assert n in Elements(Referred(c));
      ReferredExactly(c, n);
    }
  }
}
