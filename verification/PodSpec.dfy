/** Injecting the sidecar container into the pods of a Cluster. */
module PodSpec {
  import opened Prelude
  import opened PodLists

  const SIDECAR := "plugin-barman-cloud"
  const CERTIFICATES := "barman-certificates"
  const CERTIFICATES_PATH := "/barman-certificates"
  const PLUGINS := "plugins"
  const PLUGINS_PATH := "/plugins"

  datatype Probe = Probe(period: int, failures: int, timeout: int, command: seq<string>)

  datatype SecurityContext = SecurityContext(
    allowPrivilegeEscalation: bool,
    runAsNonRoot: bool,
    privileged: bool,
    readOnlyRootFilesystem: bool,
    seccompProfile: string,
    drop: seq<string>)

  datatype Container = Container(
    name: string,
    image: string,
    imagePullPolicy: string,
    args: seq<string>,
    env: seq<EnvVar>,
    mounts: seq<VolumeMount>,
    resources: map<string, string>,
    startupProbe: Option<Probe>,
    securityContext: Option<SecurityContext>,
    restartPolicy: Option<string>)

  datatype Configuration = Configuration(
    env: seq<EnvVar>,
    certificates: seq<string>,
    resources: map<string, string>,
    additionalArgs: seq<string>)

  datatype Cluster = Cluster(name: string, namespace: string, group: string, version: string, imagePullPolicy: string)

  /** What a reconcile depends on besides the pod and the name of its main container. */
  datatype Request = Request(cluster: Cluster, template: Container, config: Configuration, image: string)

  datatype Pod = Pod(volumes: seq<Volume>, containers: seq<Container>, initContainers: seq<Container>)

  datatype Problem = MainContainerNotFound

  // ---------------------------------------------------------------- what a reconcile should give

  function DefaultEnv(cluster: Cluster): seq<EnvVar> {
    [EnvVar("NAMESPACE", cluster.namespace, None),
     EnvVar("CLUSTER_NAME", cluster.name, None),
     EnvVar("SPOOL_DIRECTORY", "/controller/wal-restore-spool", None),
     EnvVar("CUSTOM_CNPG_GROUP", cluster.group, None),
     EnvVar("CUSTOM_CNPG_VERSION", cluster.version, None)]
  }

  ghost predicate HasMain(containers: seq<Container>, main: string) {
    exists i :: 0 <= i < |containers| && containers[i].name == main
  }

  /** The environment of the first main container. */
  function MainEnv(containers: seq<Container>, main: string): seq<EnvVar> {
    if containers == [] then []
    else if containers[0].name == main then containers[0].env
    else MainEnv(containers[1..], main)
  }

  /** The mounts of all main containers. */
  function MainMounts(containers: seq<Container>, main: string): seq<VolumeMount> {
    if containers == [] then []
    else if containers[0].name == main then containers[0].mounts + MainMounts(containers[1..], main)
    else MainMounts(containers[1..], main)
  }

  const PLUGIN_VOLUME := Volume(PLUGINS, EmptyDir)
  const PLUGIN_MOUNT := VolumeMount(PLUGINS, PLUGINS_PATH, false)
  const CERTIFICATES_MOUNT := VolumeMount(CERTIFICATES, CERTIFICATES_PATH, false)

  function CertificatesVolume(sources: seq<string>): Volume {
    Volume(CERTIFICATES, Projected(sources))
  }

  ghost function CertificateVolumes(volumes: seq<Volume>, certificates: seq<string>): seq<Volume> {
    if certificates != [] then WithVolume(volumes, CertificatesVolume(certificates))
    else WithoutVolume(volumes, CERTIFICATES)
  }

  ghost function PluginVolumes(volumes: seq<Volume>): seq<Volume> {
    if HasVolume(volumes, PLUGINS) then volumes else volumes + [PLUGIN_VOLUME]
  }

  /** The main containers with the plugin mount; nothing changes if the plugin volume was there before. */
  ghost function PluginContainers(volumes: seq<Volume>, containers: seq<Container>, main: string): seq<Container> {
    if HasVolume(volumes, PLUGINS) then containers
    else
      seq(|containers|, i requires 0 <= i < |containers| =>
        if containers[i].name == main then containers[i].(mounts := WithMount(containers[i].mounts, PLUGIN_MOUNT))
        else containers[i])
  }

  function StartingMounts(r: Request): seq<VolumeMount> {
    if r.config.certificates != [] then WithMount(r.template.mounts, CERTIFICATES_MOUNT)
    else WithoutMount(r.template.mounts, CERTIFICATES)
  }

  /** The sidecar of a request, given its environment and mounts. */
  function SidecarWith(r: Request, env: seq<EnvVar>, mounts: seq<VolumeMount>): Container {
    Container(
      SIDECAR,
      r.image,
      r.cluster.imagePullPolicy,
      r.template.args + r.config.additionalArgs,
      env,
      mounts,
      r.config.resources,
      Some(Probe(1, 30, 5, ["/manager", "healthcheck", "unix"])),
      Some(SecurityContext(false, true, false, true, "RuntimeDefault", ["ALL"])),
      Some("Always"))
  }

  ghost function SidecarEnv(containers: seq<Container>, main: string, r: Request): seq<EnvVar> {
    Extended(Extended(r.template.env, MainEnv(containers, main)), DefaultEnv(r.cluster) + r.config.env)
  }

  ghost function Sidecar(containers: seq<Container>, main: string, r: Request): Container {
    SidecarWith(r, SidecarEnv(containers, main, r), WithMounts(StartingMounts(r), MainMounts(containers, main)))
  }

  /** Every init container with the sidecar's name is replaced, or the sidecar is appended. */
  ghost function WithSidecar(containers: seq<Container>, sidecar: Container): seq<Container> {
    if HasMain(containers, sidecar.name) then SidecarReplaced(containers, sidecar) else containers + [sidecar]
  }

  function SidecarReplaced(containers: seq<Container>, sidecar: Container): seq<Container> {
    seq(|containers|, i requires 0 <= i < |containers| =>
      if containers[i].name == sidecar.name then sidecar else containers[i])
  }

  /** A pod without main container still gets its volumes. */
  ghost function Reconciled(pod: Pod, main: string, r: Request): Pod {
    var volumes := CertificateVolumes(pod.volumes, r.config.certificates);
    var containers := PluginContainers(pod.volumes, pod.containers, main);
    Pod(PluginVolumes(volumes),
        containers,
        if HasMain(pod.containers, main) then WithSidecar(pod.initContainers, Sidecar(containers, main, r))
        else pod.initContainers)
  }

  // ---------------------------------------------------------------- the reconciler

  class Spec {
    var volumes: seq<Volume>
    var containers: seq<Container>
    var initContainers: seq<Container>

    ghost function Contents(): Pod
      reads this
    {
      Pod(volumes, containers, initContainers)
    }

    constructor (pod: Pod)
      ensures Contents() == pod
    {
      volumes, containers, initContainers := pod.volumes, pod.containers, pod.initContainers;
    }

    method InjectPluginVolume(main: string)
      modifies this
      ensures volumes == PluginVolumes(old(volumes))
      ensures containers == PluginContainers(old(volumes), old(containers), main)
      ensures initContainers == old(initContainers)
    {
      var foundPluginVolume := false;
      for i := 0 to |volumes|
        modifies {}
        invariant foundPluginVolume <==> exists j :: 0 <= j < i && volumes[j].name == PLUGINS
      {
        if volumes[i].name == PLUGINS { foundPluginVolume := true; }
      }
      if foundPluginVolume { return; }
      volumes := EnsureVolume(volumes, PLUGIN_VOLUME);
      for i := 0 to |containers|
        invariant volumes == PluginVolumes(old(volumes)) && initContainers == old(initContainers)
        invariant |containers| == |old(containers)|
        invariant containers[..i] == PluginContainers(old(volumes), old(containers), main)[..i]
        invariant containers[i..] == old(containers)[i..]
      {
        assert containers[i] == old(containers)[i];
        if containers[i].name == main {
          var mounts := EnsureVolumeMount(containers[i].mounts, [PLUGIN_MOUNT]);
          assert mounts == WithMounts(WithMount(containers[i].mounts, PLUGIN_MOUNT), [PLUGIN_MOUNT][1..]);
          containers := containers[i := containers[i].(mounts := mounts)];
        }
      }
    }

    method PlaceSidecar(sidecar: Container)
      modifies this`initContainers
      ensures initContainers == WithSidecar(old(initContainers), sidecar)
    {
      var sidecarContainerFound := false;
      for i := 0 to |initContainers|
        invariant |initContainers| == |old(initContainers)|
        invariant initContainers[..i] == SidecarReplaced(old(initContainers), sidecar)[..i]
        invariant initContainers[i..] == old(initContainers)[i..]
        invariant sidecarContainerFound <==> exists j :: 0 <= j < i && old(initContainers)[j].name == sidecar.name
      {
        assert initContainers[i] == old(initContainers)[i];
        if initContainers[i].name == sidecar.name {
          sidecarContainerFound := true;
          initContainers := initContainers[i := sidecar];
        }
      }
      assert !sidecarContainerFound ==> SidecarReplaced(old(initContainers), sidecar) == old(initContainers);
      if !sidecarContainerFound { initContainers := initContainers + [sidecar]; }
    }

    method InjectPluginSidecar(sidecar: Container, main: string) returns (result: Result<(), Problem>)
      modifies this
      ensures volumes == PluginVolumes(old(volumes))
      ensures containers == PluginContainers(old(volumes), old(containers), main)
      ensures result == if HasMain(old(containers), main) then Ok(()) else Err(MainContainerNotFound)
      ensures initContainers ==
              if HasMain(old(containers), main)
              then WithSidecar(old(initContainers),
                               sidecar.(mounts := WithMounts(sidecar.mounts, MainMounts(containers, main))))
              else old(initContainers)
    {
      hide PluginVolumes;
      hide PluginContainers;
      hide WithSidecar;
      InjectPluginVolume(main);
      SameMain(old(volumes), old(containers), main);
      var mainContainerFound := false;
      var mounts := sidecar.mounts;
      for i := 0 to |containers|
        modifies {}
        invariant mainContainerFound <==> exists j :: 0 <= j < i && containers[j].name == main
        invariant WithMounts(mounts, MainMounts(containers[i..], main)) ==
                  WithMounts(sidecar.mounts, MainMounts(containers, main))
      {
        assert containers[i..][1..] == containers[i + 1..];
        if containers[i].name == main {
          WithMountsTwice(mounts, containers[i].mounts, MainMounts(containers[i + 1..], main));
          mounts := EnsureVolumeMount(mounts, containers[i].mounts);
          mainContainerFound := true;
        }
      }
      if !mainContainerFound { return Err(MainContainerNotFound); }
      PlaceSidecar(sidecar.(mounts := mounts));
      result := Ok(());
    }

    method Reconcile(main: string, r: Request) returns (result: Result<(), Problem>)
      modifies this
      ensures Contents() == Reconciled(old(Contents()), main, r)
      ensures result == if HasMain(old(containers), main) then Ok(()) else Err(MainContainerNotFound)
    {
      var env := r.template.env;
      for i := 0 to |containers|
        modifies {}
        invariant env == r.template.env
        invariant MainEnv(containers[i..], main) == MainEnv(containers, main)
      {
        assert containers[i..][1..] == containers[i + 1..];
        if containers[i].name == main {
          env := MergeMissing(env, containers[i].env);
          break;
        }
      }
      assert env == Extended(r.template.env, MainEnv(containers, main));
      env := MergeMissing(env, DefaultEnv(r.cluster) + r.config.env);
      var mounts: seq<VolumeMount>;
      if |r.config.certificates| > 0 {
        mounts := EnsureVolumeMount(r.template.mounts, [CERTIFICATES_MOUNT]);
        assert mounts == WithMounts(WithMount(r.template.mounts, CERTIFICATES_MOUNT), [CERTIFICATES_MOUNT][1..]);
        volumes := EnsureVolume(volumes, CertificatesVolume(r.config.certificates));
      } else {
        mounts := RemoveVolumeMount(r.template.mounts, CERTIFICATES);
        volumes := RemoveVolume(volumes, CERTIFICATES);
      }
      CertificatesKeepPlugins(old(volumes), r.config.certificates);
      SameMain(old(volumes), old(containers), main);
      result := InjectPluginSidecar(SidecarWith(r, env, mounts), main);
    }
  }

  /** The plugin mount neither adds nor removes a container, and leaves environments alone. */
  lemma SameMain(volumes: seq<Volume>, containers: seq<Container>, main: string)
    ensures HasMain(PluginContainers(volumes, containers, main), main) <==> HasMain(containers, main)
    ensures MainEnv(PluginContainers(volumes, containers, main), main) == MainEnv(containers, main)
  {
    var after := PluginContainers(volumes, containers, main);
    assert forall i :: 0 <= i < |containers| ==> after[i].name == containers[i].name;
    SameEnv(containers, after, main);
  }

  lemma {:induction false} SameEnv(a: seq<Container>, b: seq<Container>, main: string)
    requires |a| == |b|
    requires forall i :: 0 <= i < |a| ==> a[i].name == b[i].name && a[i].env == b[i].env
    ensures MainEnv(a, main) == MainEnv(b, main)
  {
    if a != [] { SameEnv(a[1..], b[1..], main); }
  }

  lemma CertificatesKeepPlugins(volumes: seq<Volume>, certificates: seq<string>)
    ensures HasVolume(CertificateVolumes(volumes, certificates), PLUGINS) <==> HasVolume(volumes, PLUGINS)
  {
    var after := CertificateVolumes(volumes, certificates);
    if certificates == [] {
      HasVolumeBy(volumes, PLUGINS);
      HasVolumeBy(after, PLUGINS);
      forall v ensures v in after <==> v in volumes && v.name != CERTIFICATES {
        WithoutExactly(volumes, CERTIFICATES, v);
      }
    } else {
      assert forall i :: 0 <= i < |volumes| ==> (after[i].name == PLUGINS <==> volumes[i].name == PLUGINS);
    }
  }
}
