/** The Role and RoleBinding the plugin wants for a Cluster. */
module RoleSpecs {
  import opened Prelude
  import opened TextOrder

  const GROUP := "barmancloud.cnpg.io"
  const CLUSTER_LABEL := "barmancloud.cnpg.io/cluster"

  datatype PolicyRule = PolicyRule(
    apiGroups: seq<string>,
    verbs: seq<string>,
    resources: seq<string>,
    resourceNames: seq<string>)

  type Secret = Option<string>

  datatype AwsCredentials = AwsCredentials(accessKeyId: Secret, secretAccessKey: Secret, region: Secret,
                                           sessionToken: Secret)

  datatype AzureCredentials = AzureCredentials(
    useDefault: bool,
    inheritFromAzureAd: bool,
    connectionString: Secret,
    storageAccount: Secret,
    storageKey: Secret,
    storageSasToken: Secret)

  datatype Credentials = Credentials(aws: Option<AwsCredentials>, azure: Option<AzureCredentials>,
                                     google: Option<Secret>)

  datatype ObjectStore = ObjectStore(name: string, credentials: Credentials)

  /** The secrets the credentials refer to. */
  function SecretNames(c: Credentials): seq<string> {
    (match c.aws
     case None => []
     case Some(a) => Present([a.accessKeyId, a.secretAccessKey, a.region, a.sessionToken])) +
    (match c.azure
     case None => []
     case Some(a) =>
       if a.useDefault || a.inheritFromAzureAd then []
       else Present([a.connectionString, a.storageAccount, a.storageKey, a.storageSasToken])) +
    (match c.google
     case None => []
     case Some(g) => Present([g]))
  }

  function Present(secrets: seq<Secret>): seq<string> {
    if secrets == [] then []
    else (if secrets[0].Some? then [secrets[0].value] else []) + Present(secrets[1..])
  }

  function StoreNames(stores: seq<ObjectStore>): set<string> {
    set s | s in stores :: s.name
  }

  function AllSecrets(stores: seq<ObjectStore>): set<string> {
    set s, n | s in stores && n in SecretNames(s.credentials) :: n
  }

  /** The three rules for sorted lists of store and secret names. */
  function RulesFor(storeNames: seq<string>, secrets: seq<string>): seq<PolicyRule> {
    [PolicyRule([GROUP], ["get", "watch", "list"], ["objectstores"], storeNames),
     PolicyRule([GROUP], ["update"], ["objectstores/status"], storeNames),
     PolicyRule([""], ["get", "watch", "list"], ["secrets"], secrets)]
  }

  ghost function RoleRules(stores: seq<ObjectStore>): seq<PolicyRule> {
    RulesFor(SortedList(StoreNames(stores)), SortedList(AllSecrets(stores)))
  }

  method BuildRoleRules(stores: seq<ObjectStore>) returns (rules: seq<PolicyRule>)
    ensures rules == RoleRules(stores)
  {
    var secrets: set<string> := {};
    var names: set<string> := {};
    for i := 0 to |stores|
      invariant names == StoreNames(stores[..i])
      invariant secrets == AllSecrets(stores[..i])
    {
      assert stores[..i + 1] == stores[..i] + [stores[i]];
      names := names + {stores[i].name};
      var used := SecretNames(stores[i].credentials);
      secrets := secrets + (set n | n in used);
    }
    assert stores[..|stores|] == stores;
    var storeNames := ToSortedList(names);
    var secretNames := ToSortedList(secrets);
    rules := RulesFor(storeNames, secretNames);
  }

  predicate NamesObjectStores(rule: PolicyRule) {
    |rule.apiGroups| == 1 && rule.apiGroups[0] == GROUP && |rule.resources| == 1 && rule.resources[0] == "objectstores"
  }

  /** The resource names of the first rule on object stores. */
  function ObjectStoreNames(rules: seq<PolicyRule>): seq<string> {
    if rules == [] then []
    else if NamesObjectStores(rules[0]) then rules[0].resourceNames
    else ObjectStoreNames(rules[1..])
  }

  /** Reading the built rules back gives the strictly sorted store names. */
  lemma NamesOfBuiltRules(stores: seq<ObjectStore>)
    ensures ObjectStoreNames(RoleRules(stores)) == SortedList(StoreNames(stores))
    ensures StrictlySorted(ObjectStoreNames(RoleRules(stores)))
    ensures Elements(ObjectStoreNames(RoleRules(stores))) == StoreNames(stores)
  {
  }

  /** Neither the order nor the repetition of the stores matters. */
  lemma RulesIgnoreOrder(a: seq<ObjectStore>, b: seq<ObjectStore>)
    requires forall s :: s in a <==> s in b
    ensures RoleRules(a) == RoleRules(b)
  {
    assert StoreNames(a) == StoreNames(b);
    assert AllSecrets(a) == AllSecrets(b);
  }

  // ---------------------------------------------------------------- objects of one cluster

  datatype Subject = Subject(kind: string, apiGroup: string, name: string, namespace: string)
  datatype RoleRef = RoleRef(apiGroup: string, kind: string, name: string)

  datatype Role = Role(labels: map<string, string>, rules: seq<PolicyRule>)
  datatype Binding = Binding(labels: map<string, string>, subjects: seq<Subject>, roleRef: RoleRef)

  datatype Cluster = Cluster(name: string, namespace: string)

  function RbacName(cluster: Cluster): string {
    cluster.name + "-barman-cloud"
  }

  function BuildLabels(cluster: Cluster): map<string, string> {
    map[CLUSTER_LABEL := cluster.name,
        "app.kubernetes.io/name" := "barman-cloud-plugin",
        "app.kubernetes.io/instance" := cluster.name,
        "app.kubernetes.io/version" := "0.14.0",
        "app.kubernetes.io/component" := "database",
        "app.kubernetes.io/managed-by" := "plugin-barman-cloud"]
  }

  function BuildBinding(cluster: Cluster): Binding {
    Binding(BuildLabels(cluster),
            [Subject("ServiceAccount", "", cluster.name, cluster.namespace)],
            RoleRef("rbac.authorization.k8s.io", "Role", RbacName(cluster)))
  }

  // ---------------------------------------------------------------- what is granted, by fields

  lemma {:induction false} PresentExactly(secrets: seq<Secret>, name: string)
    ensures name in Present(secrets) <==> Some(name) in secrets
  {
    if secrets != [] { PresentExactly(secrets[1..], name); }
  }

  /** The secrets of a store: all of AWS, all of Azure unless it needs none, and Google's. */
  lemma SecretsExactly(c: Credentials, name: string)
    ensures name in SecretNames(c) <==>
            || (c.aws.Some? &&
                Some(name) in {c.aws.value.accessKeyId, c.aws.value.secretAccessKey, c.aws.value.region,
                               c.aws.value.sessionToken})
            || (c.azure.Some? && !c.azure.value.useDefault && !c.azure.value.inheritFromAzureAd &&
                Some(name) in {c.azure.value.connectionString, c.azure.value.storageAccount, c.azure.value.storageKey,
                               c.azure.value.storageSasToken})
            || c.google == Some(Some(name))
  {
    if c.aws.Some? {
      var a := c.aws.value;
      PresentExactly([a.accessKeyId, a.secretAccessKey, a.region, a.sessionToken], name);
    }
    if c.azure.Some? {
      var a := c.azure.value;
      PresentExactly([a.connectionString, a.storageAccount, a.storageKey, a.storageSasToken], name);
    }
    if c.google.Some? { PresentExactly([c.google.value], name); }
  }

  /** The RoleBinding grants the Cluster's Role to the Cluster's service account, and to no one else. */
  lemma BindingGrants(cluster: Cluster, subject: Subject)
    ensures subject in BuildBinding(cluster).subjects <==>
            && subject.kind == "ServiceAccount" && subject.apiGroup == ""
            && subject.name == cluster.name && subject.namespace == cluster.namespace
    ensures var ref := BuildBinding(cluster).roleRef;
            && ref.apiGroup == "rbac.authorization.k8s.io" && ref.kind == "Role"
            && ref.name == cluster.name + "-barman-cloud"
    ensures var labels := BuildBinding(cluster).labels;
            "barmancloud.cnpg.io/cluster" in labels && labels["barmancloud.cnpg.io/cluster"] == cluster.name
  {
  }

  /** Some rule lists this verb on this resource of this name. */
  predicate Lists(rules: seq<PolicyRule>, group: string, verb: string, resource: string, name: string) {
    exists i :: 0 <= i < |rules| && group in rules[i].apiGroups && verb in rules[i].verbs &&
                resource in rules[i].resources && name in rules[i].resourceNames
  }

  /** What the built rules list: reading the stores and their secrets, updating the status of the stores. */
  lemma ListedExactly(stores: seq<ObjectStore>, group: string, verb: string, resource: string, name: string)
    ensures Lists(RoleRules(stores), group, verb, resource, name) <==>
            || (group == "barmancloud.cnpg.io" && resource == "objectstores" && verb in {"get", "watch", "list"} &&
                exists s :: s in stores && s.name == name)
            || (group == "barmancloud.cnpg.io" && resource == "objectstores/status" && verb == "update" &&
                exists s :: s in stores && s.name == name)
            || (group == "" && resource == "secrets" && verb in {"get", "watch", "list"} &&
                exists s :: s in stores && name in SecretNames(s.credentials))
  {
    hide SecretNames;
    var names, secrets, rules := SortedList(StoreNames(stores)), SortedList(AllSecrets(stores)), RoleRules(stores);
    assert name in names <==> name in Elements(names);
    assert name in secrets <==> name in Elements(secrets);
    assert Lists(rules, group, verb, resource, name) <==>
           || Lists([rules[0]], group, verb, resource, name)
           || Lists([rules[1]], group, verb, resource, name)
           || Lists([rules[2]], group, verb, resource, name) by {
      forall i | 0 <= i < 3 ensures [rules[i]][0] == rules[i] {}
    }
  }

  predicate IsPluginLabel(key: string) {
    || key == "barmancloud.cnpg.io/cluster"
    || key == "app.kubernetes.io/name"
    || key == "app.kubernetes.io/instance"
    || key == "app.kubernetes.io/version"
    || key == "app.kubernetes.io/component"
    || key == "app.kubernetes.io/managed-by"
  }

  /** The value each label of the plugin should have. */
  function PluginLabel(cluster: Cluster, key: string): string
    requires IsPluginLabel(key)
  {
    if key == "barmancloud.cnpg.io/cluster" || key == "app.kubernetes.io/instance" then cluster.name
    else if key == "app.kubernetes.io/name" then "barman-cloud-plugin"
    else if key == "app.kubernetes.io/version" then "0.14.0"
    else if key == "app.kubernetes.io/component" then "database"
    else "plugin-barman-cloud"
  }

  lemma LabelsAre(cluster: Cluster, key: string)
    ensures key in BuildLabels(cluster) <==> IsPluginLabel(key)
    ensures IsPluginLabel(key) ==> BuildLabels(cluster)[key] == PluginLabel(cluster, key)
  {
  }
}
