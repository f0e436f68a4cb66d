/**
 * What a reconciled pod contains, by the positions of its containers and the names the plugin uses:
 * the sidecar with its fields, environment and mounts, and the volumes behind them.
 */
module PodSidecar {
  import opened Prelude
  import opened PodLists
  import opened PodSpec
  import opened PodSpecRuns

  /** Container `i` is the first of this name. */
  predicate IsFirstMain(containers: seq<Container>, main: string, i: nat) {
    i < |containers| && containers[i].name == main && forall j :: 0 <= j < i ==> containers[j].name != main
  }

  /** Some container of this name mounts the volume. */
  ghost predicate MountedBy(containers: seq<Container>, main: string, volume: string) {
    exists i :: 0 <= i < |containers| && containers[i].name == main && Mounts(containers[i].mounts, volume)
  }

  /** No mount of the volume comes after `m`, in its container or in a later one of this name. */
  ghost predicate LastMounted(containers: seq<Container>, main: string, m: VolumeMount) {
    exists i ::
      && 0 <= i < |containers| && containers[i].name == main && IsLast(containers[i].mounts, m)
      && forall j :: i < j < |containers| && containers[j].name == main ==> !Mounts(containers[j].mounts, m.name)
  }

  // ---------------------------------------------------------------- the main containers, by position

  lemma {:induction false} MainEnvIs(containers: seq<Container>, main: string, i: nat)
    requires IsFirstMain(containers, main, i)
    ensures MainEnv(containers, main) == containers[i].env
  {
    if i > 0 {
      assert forall j :: 0 <= j < |containers[1..]| ==> containers[1..][j] == containers[j + 1];
      MainEnvIs(containers[1..], main, i - 1);
    }
  }

  lemma LastConcat(a: seq<VolumeMount>, b: seq<VolumeMount>, m: VolumeMount)
    ensures IsLast(a + b, m) <==> IsLast(b, m) || (IsLast(a, m) && !Mounts(b, m.name))
    ensures Mounts(a + b, m.name) <==> Mounts(a, m.name) || Mounts(b, m.name)
  {
    var all := a + b;
    assert forall i :: 0 <= i < |a| ==> all[i] == a[i];
    assert forall i :: 0 <= i < |b| ==> all[|a| + i] == b[i];
    assert forall i :: |a| <= i < |all| ==> all[i] == b[i - |a|];
    if IsLast(b, m) {
      var i :| 0 <= i < |b| && b[i] == m && forall j :: i < j < |b| ==> b[j].name != m.name;
      assert all[|a| + i] == m;
    }
    if Mounts(b, m.name) {
      var i :| 0 <= i < |b| && b[i].name == m.name;
      assert all[|a| + i].name == m.name;
    }
  }

  lemma ContainersStep(containers: seq<Container>, main: string, m: VolumeMount)
    requires containers != []
    ensures var own, rest := containers[0].name == main, containers[1..];
            && (MountedBy(containers, main, m.name) <==>
                 (own && Mounts(containers[0].mounts, m.name)) || MountedBy(rest, main, m.name))
            && (LastMounted(containers, main, m) <==>
                 LastMounted(rest, main, m) ||
                 (own && IsLast(containers[0].mounts, m) && !MountedBy(rest, main, m.name)))
  {
    hide IsLast;
    hide Mounts;
    var rest := containers[1..];
    assert forall i :: 0 <= i < |rest| ==> rest[i] == containers[i + 1];
    assert forall i :: 0 < i < |containers| ==> containers[i] == rest[i - 1];
    if MountedBy(rest, main, m.name) {
      var i :| 0 <= i < |rest| && rest[i].name == main && Mounts(rest[i].mounts, m.name);
      assert containers[i + 1] == rest[i];
    }
    if LastMounted(rest, main, m) {
      var i :| && 0 <= i < |rest| && rest[i].name == main && IsLast(rest[i].mounts, m)
               && forall j :: i < j < |rest| && rest[j].name == main ==> !Mounts(rest[j].mounts, m.name);
      assert containers[i + 1] == rest[i];
    }
  }

  lemma {:induction false} MainMountsAre(containers: seq<Container>, main: string, m: VolumeMount)
    ensures IsLast(MainMounts(containers, main), m) <==> LastMounted(containers, main, m)
    ensures Mounts(MainMounts(containers, main), m.name) <==> MountedBy(containers, main, m.name)
  {
    if containers != [] {
      MainMountsAre(containers[1..], main, m);
      ContainersStep(containers, main, m);
      LastConcat(containers[0].mounts, MainMounts(containers[1..], main), m);
      hide IsLast;
      hide Mounts;
      hide MountedBy;
      hide LastMounted;
    }
  }

  // ---------------------------------------------------------------- the sidecar

  /** Every init container with the sidecar's name is the sidecar, and there is one. */
  lemma SidecarIs(pod: Pod, main: string, r: Request, i: nat)
    requires i < |pod.containers| && pod.containers[i].name == main
    ensures var after := Reconciled(pod, main, r);
            var sidecar := Sidecar(after.containers, main, r);
            && sidecar in after.initContainers && sidecar.name == "plugin-barman-cloud"
            && forall c :: c in after.initContainers && c.name == "plugin-barman-cloud" ==> c == sidecar
  {
    hide WithSidecar;
    hide SidecarEnv;
    hide PluginContainers;
    SidecarPlaced(pod.initContainers, Sidecar(PluginContainers(pod.volumes, pod.containers, main), main, r));
  }

  /** Apart from environment and mounts, the sidecar is fixed by the request. */
  lemma SidecarFields(pod: Pod, main: string, r: Request, i: nat, c: Container)
    requires i < |pod.containers| && pod.containers[i].name == main
    requires c in Reconciled(pod, main, r).initContainers && c.name == "plugin-barman-cloud"
    ensures && c.image == r.image && c.imagePullPolicy == r.cluster.imagePullPolicy
            && c.args == r.template.args + r.config.additionalArgs
            && c.resources == r.config.resources
            && c.restartPolicy == Some("Always")
            && c.startupProbe.Some?
            && c.startupProbe.value.command == ["/manager", "healthcheck", "unix"]
            && c.startupProbe.value.period == 1
            && c.startupProbe.value.failures == 30
            && c.startupProbe.value.timeout == 5
            && c.securityContext.Some?
            && !c.securityContext.value.allowPrivilegeEscalation && c.securityContext.value.runAsNonRoot
            && !c.securityContext.value.privileged && c.securityContext.value.readOnlyRootFilesystem
            && c.securityContext.value.seccompProfile == "RuntimeDefault"
            && c.securityContext.value.drop == ["ALL"]
  {
    SidecarIs(pod, main, r, i);
    hide Reconciled;
    hide SidecarEnv;
  }

  /** What the plugin sets in any case: where the sidecar finds its Cluster and its spool. */
  function PluginEnv(cluster: Cluster): seq<EnvVar> {
    [EnvVar("NAMESPACE", cluster.namespace, None),
     EnvVar("CLUSTER_NAME", cluster.name, None),
     EnvVar("SPOOL_DIRECTORY", "/controller/wal-restore-spool", None),
     EnvVar("CUSTOM_CNPG_GROUP", cluster.group, None),
     EnvVar("CUSTOM_CNPG_VERSION", cluster.version, None)]
  }

  lemma SidecarEnvIs(pod: Pod, main: string, r: Request, i: nat)
    requires IsFirstMain(pod.containers, main, i)
    ensures SidecarEnv(PluginContainers(pod.volumes, pod.containers, main), main, r) ==
            r.template.env +
            FirstOccurrences(Others(pod.containers[i].env + PluginEnv(r.cluster) + r.config.env, Names(r.template.env)))
  {
    SameMain(pod.volumes, pod.containers, main);
    MainEnvIs(pod.containers, main, i);
    assert DefaultEnv(r.cluster) == PluginEnv(r.cluster);
    hide PluginContainers;
    hide DefaultEnv;
    hide PluginEnv;
    hide Extended;
    hide FirstOccurrences;
    hide Others;
    var own, more := pod.containers[i].env, PluginEnv(r.cluster) + r.config.env;
    ExtendedTwice(r.template.env, own, more);
    assert own + more == own + PluginEnv(r.cluster) + r.config.env;
    ExtendedIsFirstOccurrences(r.template.env, own + more);
  }

  /**
   * The environment of the sidecar is that of its template and then, of the names it does not set, the
   * first occurrence of each in the environment of the first main container, then among the plugin's
   * variables, then among the configured ones.
   */
  lemma SidecarEnvironmentIs(pod: Pod, main: string, r: Request, i: nat, c: Container)
    requires IsFirstMain(pod.containers, main, i)
    requires c in Reconciled(pod, main, r).initContainers && c.name == "plugin-barman-cloud"
    ensures c.env ==
            r.template.env +
            FirstOccurrences(Others(pod.containers[i].env + PluginEnv(r.cluster) + r.config.env, Names(r.template.env)))
  {
    SidecarIs(pod, main, r, i);
    SidecarEnvIs(pod, main, r, i);
    hide PluginContainers;
    hide SidecarEnv;
    hide FirstOccurrences;
    hide Others;
    hide WithSidecar;
  }

  /** A variable of the first main container is in the sidecar with its value, whatever else is set. */
  lemma MainVariablesAreKept(pod: Pod, main: string, r: Request, i: nat, c: Container, j: nat)
    requires IsFirstMain(pod.containers, main, i) && r.template.env == []
    requires c in Reconciled(pod, main, r).initContainers && c.name == "plugin-barman-cloud"
    requires j < |pod.containers[i].env|
    requires forall k :: 0 <= k < j ==> pod.containers[i].env[k].name != pod.containers[i].env[j].name
    ensures pod.containers[i].env[j] in c.env
    ensures forall v :: v in c.env && v.name == pod.containers[i].env[j].name ==> v == pod.containers[i].env[j]
  {
    var own := pod.containers[i].env;
    var all := own + PluginEnv(r.cluster) + r.config.env;
    SidecarEnvironmentIs(pod, main, r, i, c);
    assert Names([]) == {};
    OthersOfNone(all);
    hide Reconciled;
    hide Others;
    hide FirstOccurrences;
    hide PluginEnv;
    assert c.env == FirstOccurrences(all);
    assert forall k :: 0 <= k <= j ==> all[k] == own[k];
    FirstOccurrencesExactly(all, own[j]);
    assert IsFirst(all, own[j]);
    forall v | v in c.env && v.name == own[j].name ensures v == own[j] {
      FirstOccurrencesExactly(all, v);
    }
  }

  lemma {:induction false} WithoutMountExactly(mounts: seq<VolumeMount>, name: string, m: VolumeMount)
    requires DistinctMounts(mounts)
    ensures m in WithoutMount(mounts, name) <==> m in mounts && m.name != name
    ensures DistinctMounts(WithoutMount(mounts, name))
    ensures Mounts(WithoutMount(mounts, name), m.name) ==> Mounts(mounts, m.name)
  {
    if mounts != [] {
      var rest, last := mounts[..|mounts| - 1], mounts[|mounts| - 1];
      assert mounts == rest + [last];
      WithoutMountExactly(rest, name, m);
      var r := WithoutMount(rest, name);
      forall i | 0 <= i < |r| ensures r[i].name != last.name {
        WithoutMountExactly(rest, name, r[i]);
      }
    }
  }

  /**
   * The sidecar mounts, of each volume, what the main containers mount last. Where they mount nothing,
   * it mounts the certificates, if there are any, and otherwise what its template does; and nothing else.
   */
  lemma SidecarMountsExactly(pod: Pod, main: string, r: Request, i: nat, c: Container, m: VolumeMount)
    requires i < |pod.containers| && pod.containers[i].name == main && DistinctMounts(r.template.mounts)
    requires c in Reconciled(pod, main, r).initContainers && c.name == "plugin-barman-cloud"
    ensures var containers := Reconciled(pod, main, r).containers;
            m in c.mounts <==>
            || LastMounted(containers, main, m)
            || (!MountedBy(containers, main, m.name) &&
                if m.name == "barman-certificates"
                then m.mountPath == "/barman-certificates" && !m.readOnly && r.config.certificates != []
                else m in r.template.mounts)
  {
    SidecarIs(pod, main, r, i);
    var containers := PluginContainers(pod.volumes, pod.containers, main);
    if r.config.certificates != [] {
      WithMountExactly(r.template.mounts, CERTIFICATES_MOUNT, m);
    } else {
      WithoutMountExactly(r.template.mounts, CERTIFICATES, m);
    }
    WithMountsExactly(StartingMounts(r), MainMounts(containers, main), m);
    MainMountsAre(containers, main, m);
    hide PluginContainers;
    hide LastMounted;
    hide MountedBy;
    hide WithSidecar;
    hide WithMount;
    hide WithMounts;
    hide WithoutMount;
    hide MainMounts;
  }

  // ---------------------------------------------------------------- volumes

  /** A pod that had no plugins volume gets one, and its main containers mount it. */
  lemma PluginsAreInjected(pod: Pod, main: string, r: Request)
    requires forall v :: v in pod.volumes ==> v.name != "plugins"
    ensures var after := Reconciled(pod, main, r);
            && Volume("plugins", EmptyDir) in after.volumes
            && forall i :: 0 <= i < |after.containers| && after.containers[i].name == main ==>
                 VolumeMount("plugins", "/plugins", false) in after.containers[i].mounts
  {
    var after := Reconciled(pod, main, r);
    var volumes := CertificateVolumes(pod.volumes, r.config.certificates);
    CertificatesKeepPlugins(pod.volumes, r.config.certificates);
    assert !HasVolume(volumes, PLUGINS);
    assert after.volumes[|volumes|] == Volume("plugins", EmptyDir);
    forall i | 0 <= i < |after.containers| && after.containers[i].name == main
      ensures VolumeMount("plugins", "/plugins", false) in after.containers[i].mounts
    {
      MountIsThere(pod.containers[i].mounts, VolumeMount("plugins", "/plugins", false));
    }
  }

  /** A pod that has the plugins volume keeps its containers as they are. */
  lemma PluginsAreLeft(pod: Pod, main: string, r: Request, v: Volume)
    requires v in pod.volumes && v.name == "plugins"
    ensures Reconciled(pod, main, r).containers == pod.containers
  {
    var i :| 0 <= i < |pod.volumes| && pod.volumes[i] == v;
    assert pod.volumes[i].name == PLUGINS;
  }

  lemma {:induction false} MountIsThere(mounts: seq<VolumeMount>, mount: VolumeMount)
    ensures mount in WithMount(mounts, mount)
  {
    if mounts != [] { MountIsThere(mounts[1..], mount); }
  }

  /** The certificates volume is there exactly if there are certificates, and holds just these. */
  lemma CertificatesAreMounted(pod: Pod, main: string, r: Request)
    ensures var after := Reconciled(pod, main, r);
            && (forall v :: v in after.volumes && v.name == "barman-certificates" ==>
                  v.source == Projected(r.config.certificates))
            && ((exists v :: v in after.volumes && v.name == "barman-certificates") <==> r.config.certificates != [])
  {
    var after := Reconciled(pod, main, r);
    var volumes := CertificateVolumes(pod.volumes, r.config.certificates);
    assert forall v :: v in after.volumes && v.name == "barman-certificates" ==> v in volumes;
    assert forall v :: v in volumes ==> v in after.volumes;
    var certificates := CertificatesVolume(r.config.certificates);
    if r.config.certificates == [] {
      forall v | v in volumes ensures v.name != "barman-certificates" { WithoutExactly(pod.volumes, CERTIFICATES, v); }
    } else if HasVolume(pod.volumes, CERTIFICATES) {
      var i :| 0 <= i < |pod.volumes| && pod.volumes[i].name == CERTIFICATES;
      assert volumes[i] == certificates;
    } else {
      assert volumes[|pod.volumes|] == certificates;
    }
  }
}
