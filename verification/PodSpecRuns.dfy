/** Repeated injection: what a pod remembers of the configurations it was reconciled with before. */
module PodSpecRuns {
  import opened PodLists
  import opened PodSpec

  // ---------------------------------------------------------------- containers

  lemma PluginsPresent(pod: Pod, main: string, r: Request)
    ensures HasVolume(Reconciled(pod, main, r).volumes, PLUGINS)
  {
    var volumes := CertificateVolumes(pod.volumes, r.config.certificates);
    if !HasVolume(volumes, PLUGINS) { assert PluginVolumes(volumes)[|volumes|] == PLUGIN_VOLUME; }
  }

  /** A second sidecar takes the place of the first. */
  lemma WithSidecarTwice(containers: seq<Container>, a: Container, b: Container)
    requires a.name == b.name
    ensures WithSidecar(WithSidecar(containers, a), b) == WithSidecar(containers, b)
  {
    var once := WithSidecar(containers, a);
    if HasMain(containers, a.name) {
      var i :| 0 <= i < |containers| && containers[i].name == a.name;
      assert once[i].name == b.name;
    } else {
      assert once[|containers|] == a;
    }
  }

  /** The containers and the init containers depend on the last request alone. */
  lemma ContainersForget(pod: Pod, main: string, r1: Request, r2: Request)
    ensures Reconciled(Reconciled(pod, main, r1), main, r2).containers == Reconciled(pod, main, r2).containers
    ensures Reconciled(Reconciled(pod, main, r1), main, r2).initContainers == Reconciled(pod, main, r2).initContainers
  {
    var once := Reconciled(pod, main, r1);
    PluginsPresent(pod, main, r1);
    SameMain(pod.volumes, pod.containers, main);
    if HasMain(pod.containers, main) {
      WithSidecarTwice(pod.initContainers, Sidecar(once.containers, main, r1), Sidecar(once.containers, main, r2));
    }
  }

  // ---------------------------------------------------------------- volumes

  /** At most one volume carries the certificates, or the first request leaves some, or the second wants none. */
  predicate Forgets(pod: Pod, r1: Request, r2: Request) {
    r1.config.certificates != [] || r2.config.certificates == [] || Count(pod.volumes, CERTIFICATES) <= 1
  }

  lemma WithVolumeAppend(volumes: seq<Volume>, volume: Volume, other: Volume)
    requires other.name != volume.name && HasVolume(volumes, volume.name)
    ensures WithVolume(volumes + [other], volume) == WithVolume(volumes, volume) + [other]
  {
    var i :| 0 <= i < |volumes| && volumes[i].name == volume.name;
    assert (volumes + [other])[i] == volumes[i];
  }

  lemma WithVolumeTwice(volumes: seq<Volume>, a: Volume, b: Volume)
    requires a.name == b.name
    ensures HasVolume(WithVolume(volumes, a), b.name)
    ensures WithVolume(WithVolume(volumes, a), b) == WithVolume(volumes, b)
  {
    var once := WithVolume(volumes, a);
    if HasVolume(volumes, a.name) {
      var i :| 0 <= i < |volumes| && volumes[i].name == a.name;
      assert once[i].name == b.name;
    } else {
      assert once[|volumes|] == a;
    }
  }

  lemma {:induction false} WithoutReplaced(volumes: seq<Volume>, volume: Volume)
    ensures WithoutVolume(Replaced(volumes, volume), volume.name) == WithoutVolume(volumes, volume.name)
  {
    if volumes != [] {
      WithoutReplaced(volumes[1..], volume);
      assert Replaced(volumes, volume)[1..] == Replaced(volumes[1..], volume);
    }
  }

  lemma WithoutWith(volumes: seq<Volume>, volume: Volume)
    ensures WithoutVolume(WithVolume(volumes, volume), volume.name) == WithoutVolume(volumes, volume.name)
  {
    if HasVolume(volumes, volume.name) {
      WithoutReplaced(volumes, volume);
    } else {
      WithoutConcat(volumes, [volume], volume.name);
    }
  }

  lemma {:induction false} WithoutTwice(volumes: seq<Volume>, name: string)
    ensures WithoutVolume(WithoutVolume(volumes, name), name) == WithoutVolume(volumes, name)
    ensures !HasVolume(WithoutVolume(volumes, name), name)
  {
    if volumes != [] { WithoutTwice(volumes[1..], name); }
    HasVolumeBy(WithoutVolume(volumes, name), name);
    forall v | v in WithoutVolume(volumes, name) ensures v.name != name { WithoutExactly(volumes, name, v); }
  }

  /** Unless certificates appear where there were none, even the order of the volumes is forgotten. */
  lemma VolumesForgetInOrder(pod: Pod, main: string, r1: Request, r2: Request)
    requires r1.config.certificates != [] || r2.config.certificates == []
    ensures Reconciled(Reconciled(pod, main, r1), main, r2).volumes == Reconciled(pod, main, r2).volumes
  {
    var c1, c2 := r1.config.certificates, r2.config.certificates;
    var first := CertificateVolumes(pod.volumes, c1);
    var once := Reconciled(pod, main, r1);
    CertificatesKeepPlugins(pod.volumes, c1);
    CertificatesKeepPlugins(pod.volumes, c2);
    CertificatesKeepPlugins(once.volumes, c2);
    PluginsPresent(pod, main, r1);
    if c2 == [] {
      WithoutConcat(first, [PLUGIN_VOLUME], CERTIFICATES);
      if c1 == [] {
        WithoutTwice(pod.volumes, CERTIFICATES);
      } else {
        WithoutWith(pod.volumes, CertificatesVolume(c1));
      }
    } else {
      WithVolumeTwice(pod.volumes, CertificatesVolume(c1), CertificatesVolume(c2));
      WithVolumeAppend(first, CertificatesVolume(c2), PLUGIN_VOLUME);
    }
  }

  /** Certificates that were taken away and come back stand at the end, once. */
  lemma CertificatesComeBack(pod: Pod, main: string, r1: Request, r2: Request)
    requires r1.config.certificates == [] && r2.config.certificates != []
    ensures Reconciled(Reconciled(pod, main, r1), main, r2).volumes ==
            PluginVolumes(WithoutVolume(pod.volumes, CERTIFICATES)) + [CertificatesVolume(r2.config.certificates)]
  {
    var once := Reconciled(pod, main, r1).volumes;
    PluginsPresent(pod, main, r1);
    WithoutTwice(pod.volumes, CERTIFICATES);
    assert !HasVolume(once, CERTIFICATES);
    CertificatesKeepPlugins(once, r2.config.certificates);
  }

  /** Certificates that were there all along stand where they stood, as often as they did. */
  lemma CertificatesCopied(pod: Pod, main: string, r: Request)
    requires r.config.certificates != []
    ensures multiset(Reconciled(pod, main, r).volumes) ==
            multiset(PluginVolumes(WithoutVolume(pod.volumes, CERTIFICATES))) +
            multiset{}[CertificatesVolume(r.config.certificates) :=
                       if Count(pod.volumes, CERTIFICATES) == 0 then 1 else Count(pod.volumes, CERTIFICATES)]
  {
    hide Reconciled;
    hide HasVolume;
    var v := CertificatesVolume(r.config.certificates);
    var bare := WithoutVolume(pod.volumes, CERTIFICATES);
    var volumes := WithVolume(pod.volumes, v);
    CertificatesKeepPlugins(pod.volumes, []);
    CertificatesKeepPlugins(pod.volumes, r.config.certificates);
    VolumesOf(pod, main, r);
    CountHas(pod.volumes, CERTIFICATES);
    ReplacedIsSwapped(pod.volumes, v);
    if !HasVolume(pod.volumes, CERTIFICATES) { ReplacedNothing(pod.volumes, v); }
    assert multiset(volumes) == multiset(bare) +
      multiset{}[v := if Count(pod.volumes, CERTIFICATES) == 0 then 1 else Count(pod.volumes, CERTIFICATES)];
  }

  lemma VolumesOf(pod: Pod, main: string, r: Request)
    ensures Reconciled(pod, main, r).volumes == PluginVolumes(CertificateVolumes(pod.volumes, r.config.certificates))
  {
  }

  lemma ReplacedNothing(volumes: seq<Volume>, volume: Volume)
    requires !HasVolume(volumes, volume.name)
    ensures Replaced(volumes, volume) == volumes
  {
  }

  /** Up to order, the volumes depend on the last request alone exactly when `Forgets` holds. */
  lemma VolumesForgetExactly(pod: Pod, main: string, r1: Request, r2: Request)
    ensures multiset(Reconciled(Reconciled(pod, main, r1), main, r2).volumes) ==
            multiset(Reconciled(pod, main, r2).volumes)
            <==> Forgets(pod, r1, r2)
  {
    if r1.config.certificates != [] || r2.config.certificates == [] {
      VolumesForgetInOrder(pod, main, r1, r2);
    } else {
      CertificatesComeBack(pod, main, r1, r2);
      CertificatesCopied(pod, main, r2);
      var v := CertificatesVolume(r2.config.certificates);
      var kept := multiset(PluginVolumes(WithoutVolume(pod.volumes, CERTIFICATES)));
      var n := Count(pod.volumes, CERTIFICATES);
      assert multiset(Reconciled(Reconciled(pod, main, r1), main, r2).volumes)[v] == kept[v] + 1;
      assert multiset(Reconciled(pod, main, r2).volumes)[v] == kept[v] + if n == 0 then 1 else n;
      if n <= 1 { assert multiset{}[v := 1] == multiset{v}; }
    }
  }

  /** Two certificates volumes: taking the certificates away for a while leaves one volume instead of two. */
  lemma TwoCertificatesVolumesRemembered(r: Request)
    requires r.config.certificates != []
    ensures var volume := Volume(CERTIFICATES, EmptyDir);
            var without := r.(config := r.config.(certificates := []));
            var pod := Pod([volume, volume], [], []);
            multiset(Reconciled(Reconciled(pod, "postgres", without), "postgres", r).volumes) !=
            multiset(Reconciled(pod, "postgres", r).volumes)
  {
    var volume := Volume(CERTIFICATES, EmptyDir);
    var pod := Pod([volume, volume], [], []);
    assert [volume, volume][1..] == [volume] && [volume][1..] == [];
    assert Count([volume], CERTIFICATES) == 1;
    assert Count([volume, volume], CERTIFICATES) == 2;
    VolumesForgetExactly(pod, "postgres", r.(config := r.config.(certificates := [])), r);
  }

  /** Reconciling again with the same request changes nothing, not even an order. */
  lemma ReconcileIsIdempotent(pod: Pod, main: string, r: Request)
    ensures Reconciled(Reconciled(pod, main, r), main, r) == Reconciled(pod, main, r)
  {
    ContainersForget(pod, main, r, r);
    VolumesForgetInOrder(pod, main, r, r);
  }

  // ---------------------------------------------------------------- whole histories

  ghost function History(pod: Pod, main: string, rs: seq<Request>): Pod {
    if rs == [] then pod else Reconciled(History(pod, main, rs[..|rs| - 1]), main, rs[|rs| - 1])
  }

  ghost predicate SameUpToOrder(a: Pod, b: Pod) {
    a.containers == b.containers && a.initContainers == b.initContainers && multiset(a.volumes) == multiset(b.volumes)
  }

  lemma {:induction false} CountConcat(a: seq<Volume>, b: seq<Volume>, name: string)
    ensures Count(a + b, name) == Count(a, name) + Count(b, name)
  {
    if a == [] {
      assert a + b == b;
    } else {
      assert (a + b)[1..] == a[1..] + b;
      CountConcat(a[1..], b, name);
    }
  }

  lemma {:induction false} CountReplaced(volumes: seq<Volume>, volume: Volume, name: string)
    ensures Count(Replaced(volumes, volume), name) == Count(volumes, name)
  {
    if volumes != [] {
      CountReplaced(volumes[1..], volume, name);
      assert Replaced(volumes, volume)[1..] == Replaced(volumes[1..], volume);
    }
  }

  /** A pod with at most one certificates volume keeps at most one. */
  lemma StaysSingle(pod: Pod, main: string, r: Request)
    requires Count(pod.volumes, CERTIFICATES) <= 1
    ensures Count(Reconciled(pod, main, r).volumes, CERTIFICATES) <= 1
  {
    var c := r.config.certificates;
    var volumes := CertificateVolumes(pod.volumes, c);
    CountConcat(volumes, [PLUGIN_VOLUME], CERTIFICATES);
    CountHas(pod.volumes, CERTIFICATES);
    if c == [] {
      WithoutTwice(pod.volumes, CERTIFICATES);
      CountHas(volumes, CERTIFICATES);
    } else if HasVolume(pod.volumes, CERTIFICATES) {
      CountReplaced(pod.volumes, CertificatesVolume(c), CERTIFICATES);
    } else {
      CountConcat(pod.volumes, [CertificatesVolume(c)], CERTIFICATES);
    }
  }

  lemma {:induction false} HistoryStaysSingle(pod: Pod, main: string, rs: seq<Request>)
    requires Count(pod.volumes, CERTIFICATES) <= 1
    ensures Count(History(pod, main, rs).volumes, CERTIFICATES) <= 1
  {
    if rs != [] {
      HistoryStaysSingle(pod, main, rs[..|rs| - 1]);
      StaysSingle(History(pod, main, rs[..|rs| - 1]), main, rs[|rs| - 1]);
    }
  }

  /** Some request of the history wants no certificates. */
  predicate TakesAway(rs: seq<Request>) {
    exists i :: 0 <= i < |rs| && rs[i].config.certificates == []
  }

  lemma TakesAwayStep(rs: seq<Request>)
    requires rs != []
    ensures TakesAway(rs) <==> TakesAway(rs[..|rs| - 1]) || rs[|rs| - 1].config.certificates == []
  {
    if TakesAway(rs[..|rs| - 1]) {
      var i :| 0 <= i < |rs| - 1 && rs[..|rs| - 1][i].config.certificates == [];
      assert rs[i].config.certificates == [];
    }
    if TakesAway(rs) {
      var i :| 0 <= i < |rs| && rs[i].config.certificates == [];
      assert i < |rs| - 1 ==> rs[..|rs| - 1][i] == rs[i];
    }
  }

  /** Once the certificates were taken away, there is at most one certificates volume. */
  lemma {:induction false} TakenAwayIsSingle(pod: Pod, main: string, rs: seq<Request>)
    requires TakesAway(rs)
    ensures Count(History(pod, main, rs).volumes, CERTIFICATES) <= 1
  {
    var before, r := rs[..|rs| - 1], rs[|rs| - 1];
    var start := History(pod, main, before);
    TakesAwayStep(rs);
    if TakesAway(before) {
      TakenAwayIsSingle(pod, main, before);
      StaysSingle(start, main, r);
    } else {
      var volumes := WithoutVolume(start.volumes, CERTIFICATES);
      WithoutTwice(start.volumes, CERTIFICATES);
      CountConcat(volumes, [PLUGIN_VOLUME], CERTIFICATES);
      CountHas(volumes, CERTIFICATES);
    }
  }

  /** Nothing of the history is remembered, because of the pod, the last request, or all earlier ones. */
  predicate HistoryForgets(pod: Pod, rs: seq<Request>, last: Request) {
    Count(pod.volumes, CERTIFICATES) <= 1 || last.config.certificates == [] || !TakesAway(rs)
  }

  lemma {:induction false} HistoryIsForgotten(pod: Pod, main: string, rs: seq<Request>, last: Request)
    requires HistoryForgets(pod, rs, last)
    ensures SameUpToOrder(History(pod, main, rs + [last]), Reconciled(pod, main, last))
  {
    assert (rs + [last])[..|rs|] == rs;
    if rs != [] {
      var before, r := rs[..|rs| - 1], rs[|rs| - 1];
      var start := History(pod, main, before);
      TakesAwayStep(rs);
      if Count(pod.volumes, CERTIFICATES) <= 1 { HistoryStaysSingle(pod, main, before); }
      ContainersForget(start, main, r, last);
      VolumesForgetExactly(start, main, r, last);
      HistoryIsForgotten(pod, main, before, last);
      assert (before + [last])[..|before|] == before;
    }
  }

  /** As many volumes carry the new certificates as carried certificates before, but one at least. */
  lemma CopiesOfCertificates(pod: Pod, main: string, r: Request)
    requires r.config.certificates != []
    ensures multiset(Reconciled(pod, main, r).volumes)[CertificatesVolume(r.config.certificates)] ==
            if Count(pod.volumes, CERTIFICATES) == 0 then 1 else Count(pod.volumes, CERTIFICATES)
  {
    hide Reconciled;
    var v := CertificatesVolume(r.config.certificates);
    var bare := PluginVolumes(WithoutVolume(pod.volumes, CERTIFICATES));
    CertificatesCopied(pod, main, r);
    WithoutExactly(pod.volumes, CERTIFICATES, v);
    assert v !in bare;
    assert multiset(bare)[v] == 0;
  }

  /**
   * Whatever configurations came before, the pod is as if only the last one had ever been applied, up
   * to the order of its volumes, exactly if the pod had at most one certificates volume, or the last
   * configuration has no certificates, or all earlier ones have some.
   */
  lemma OnlyTheLastCounts(pod: Pod, main: string, rs: seq<Request>, last: Request)
    ensures SameUpToOrder(History(pod, main, rs + [last]), Reconciled(pod, main, last)) <==>
            HistoryForgets(pod, rs, last)
  {
    if HistoryForgets(pod, rs, last) {
      HistoryIsForgotten(pod, main, rs, last);
    } else {
      assert (rs + [last])[..|rs|] == rs;
      TakenAwayIsSingle(pod, main, rs);
      CopiesOfCertificates(pod, main, last);
      CopiesOfCertificates(History(pod, main, rs), main, last);
    }
  }

  // ---------------------------------------------------------------- what is left alone

  lemma {:induction false} WithoutCommutes(volumes: seq<Volume>, a: string, b: string)
    ensures WithoutVolume(WithoutVolume(volumes, a), b) == WithoutVolume(WithoutVolume(volumes, b), a)
  {
    if volumes != [] { WithoutCommutes(volumes[1..], a, b); }
  }

  /** All volumes but the certificates and the plugins are the same, in the same order. */
  lemma OtherVolumesStay(pod: Pod, main: string, r: Request)
    ensures WithoutVolume(WithoutVolume(Reconciled(pod, main, r).volumes, CERTIFICATES), PLUGINS) ==
            WithoutVolume(WithoutVolume(pod.volumes, CERTIFICATES), PLUGINS)
  {
    var c := r.config.certificates;
    var volumes := CertificateVolumes(pod.volumes, c);
    if c == [] { WithoutTwice(pod.volumes, CERTIFICATES); } else { WithoutWith(pod.volumes, CertificatesVolume(c)); }
    WithoutConcat(volumes, [PLUGIN_VOLUME], CERTIFICATES);
    var rest := WithoutVolume(volumes, CERTIFICATES);
    assert rest == WithoutVolume(pod.volumes, CERTIFICATES);
    assert WithoutVolume([PLUGIN_VOLUME], CERTIFICATES) == [PLUGIN_VOLUME];
    assert WithoutVolume([PLUGIN_VOLUME], PLUGINS) == [];
    WithoutConcat(rest, [PLUGIN_VOLUME], PLUGINS);
    assert WithoutVolume(rest, PLUGINS) + [] == WithoutVolume(rest, PLUGINS);
  }

  lemma {:induction false} WithoutMountConcat(a: seq<VolumeMount>, b: seq<VolumeMount>, name: string)
    ensures WithoutMount(a + b, name) == WithoutMount(a, name) + WithoutMount(b, name)
    decreases |b|
  {
    if b == [] {
      assert a + b == a;
    } else {
      assert (a + b)[..|a + b| - 1] == a + b[..|b| - 1];
      WithoutMountConcat(a, b[..|b| - 1], name);
    }
  }

  /** Ensuring a mount leaves the mounts of other volumes alone. */
  lemma {:induction false} OtherMountsStay(mounts: seq<VolumeMount>, mount: VolumeMount)
    ensures WithoutMount(WithMount(mounts, mount), mount.name) == WithoutMount(mounts, mount.name)
  {
    if mounts != [] {
      var head, rest := [mounts[0]], mounts[1..];
      assert mounts == head + rest;
      WithoutMountConcat(head, rest, mount.name);
      if mounts[0].name == mount.name {
        WithoutMountConcat([mount], rest, mount.name);
      } else {
        WithoutMountConcat(head, WithMount(rest, mount), mount.name);
        OtherMountsStay(rest, mount);
      }
    }
  }

  /**
   * No container comes or goes; other containers than the main ones are untouched, and these keep
   * everything but their mount of the plugins. Init containers change only if they are the sidecar.
   */
  lemma OtherContainersStay(pod: Pod, main: string, r: Request)
    ensures var after := Reconciled(pod, main, r);
            && |after.containers| == |pod.containers|
            && (forall i :: 0 <= i < |pod.containers| ==>
                 && (pod.containers[i].name != main ==> after.containers[i] == pod.containers[i])
                 && after.containers[i].(mounts := pod.containers[i].mounts) == pod.containers[i]
                 && WithoutMount(after.containers[i].mounts, PLUGINS) ==
                   WithoutMount(pod.containers[i].mounts, PLUGINS))
            && |pod.initContainers| <= |after.initContainers| <= |pod.initContainers| + 1
            && (forall i :: 0 <= i < |pod.initContainers| && pod.initContainers[i].name != SIDECAR ==>
                 after.initContainers[i] == pod.initContainers[i])
  {
    hide Sidecar;
    forall i | 0 <= i < |pod.containers|
      ensures WithoutMount(Reconciled(pod, main, r).containers[i].mounts, PLUGINS) ==
              WithoutMount(pod.containers[i].mounts, PLUGINS)
    {
      OtherMountsStay(pod.containers[i].mounts, PLUGIN_MOUNT);
    }
    SidecarName(PluginContainers(pod.volumes, pod.containers, main), main, r);
  }

  lemma SidecarName(containers: seq<Container>, main: string, r: Request)
    ensures Sidecar(containers, main, r).name == SIDECAR
  {
  }

  // ---------------------------------------------------------------- the sidecar

  /** The sidecar is among the init containers, and every init container of its name is it. */
  lemma SidecarPlaced(containers: seq<Container>, sidecar: Container)
    ensures sidecar in WithSidecar(containers, sidecar)
    ensures forall c :: c in WithSidecar(containers, sidecar) && c.name == sidecar.name ==> c == sidecar
  {
    var after := WithSidecar(containers, sidecar);
    if HasMain(containers, sidecar.name) {
      var i :| 0 <= i < |containers| && containers[i].name == sidecar.name;
      assert after[i] == sidecar;
    } else {
      assert after[|containers|] == sidecar;
    }
  }

  lemma SidecarEnvOf(pod: Pod, main: string, r: Request)
    requires r.template.env == []
    ensures SidecarEnv(PluginContainers(pod.volumes, pod.containers, main), main, r) ==
            FirstOccurrences(MainEnv(pod.containers, main) + DefaultEnv(r.cluster) + r.config.env)
  {
    hide PluginContainers;
    hide DefaultEnv;
    hide FirstOccurrences;
    SameMain(pod.volumes, pod.containers, main);
    var own, more := MainEnv(pod.containers, main), DefaultEnv(r.cluster) + r.config.env;
    ExtendedTwice([], own, more);
    assert own + more == own + DefaultEnv(r.cluster) + r.config.env;
    ExtendedIsFirstOccurrences([], own + more);
    assert Names([]) == {};
    OthersOfNone(own + more);
  }

  /**
   * With a main container, the pod has the sidecar, every init container of that name is it, and its
   * environment keeps the first occurrence of every name in the environment of the main container,
   * then the defaults, then the configured variables.
   */
  lemma SidecarEnvironment(pod: Pod, main: string, r: Request)
    requires HasMain(pod.containers, main) && r.template.env == []
    ensures var after := Reconciled(pod, main, r).initContainers;
            && (exists c :: c in after && c.name == SIDECAR)
            && forall c :: c in after && c.name == SIDECAR ==>
                 c.env == FirstOccurrences(MainEnv(pod.containers, main) + DefaultEnv(r.cluster) + r.config.env)
  {
    hide SidecarEnv;
    hide WithSidecar;
    hide PluginContainers;
    hide DefaultEnv;
    hide FirstOccurrences;
    SidecarEnvOf(pod, main, r);
    SidecarPlaced(pod.initContainers, Sidecar(PluginContainers(pod.volumes, pod.containers, main), main, r));
  }

  /** A variable of the main container is never overridden, whatever the plugin wants to set. */
  lemma MainContainerWins(pod: Pod, main: string, r: Request, v: EnvVar)
    requires IsFirst(MainEnv(pod.containers, main), v)
    ensures v in FirstOccurrences(MainEnv(pod.containers, main) + DefaultEnv(r.cluster) + r.config.env)
  {
    var own, all := MainEnv(pod.containers, main), MainEnv(pod.containers, main) + DefaultEnv(r.cluster) + r.config.env;
    var i :| 0 <= i < |own| && own[i] == v && forall j :: 0 <= j < i ==> own[j].name != v.name;
    assert forall j :: 0 <= j < |own| ==> all[j] == own[j];
    FirstOccurrencesExactly(all, v);
  }

  /** The mounts shared with the sidecar: of each volume, the last mount of the main containers. */
  lemma SidecarMounts(pod: Pod, main: string, r: Request, m: VolumeMount)
    requires r.template.mounts == []
    ensures var mounts := MainMounts(PluginContainers(pod.volumes, pod.containers, main), main);
            m in Sidecar(PluginContainers(pod.volumes, pod.containers, main), main, r).mounts <==>
            || IsLast(mounts, m)
            || (m == CERTIFICATES_MOUNT && r.config.certificates != [] && !Mounts(mounts, CERTIFICATES))
  {
    WithMountsExactly(StartingMounts(r), MainMounts(PluginContainers(pod.volumes, pod.containers, main), main), m);
  }

  /** Every mount of the main containers reaches the sidecar exactly when no volume is mounted in two ways. */
  lemma AllMountsSharedExactly(pod: Pod, main: string, r: Request)
    requires r.template.mounts == []
    ensures var containers := PluginContainers(pod.volumes, pod.containers, main);
            var mounts := MainMounts(containers, main);
            (forall m :: m in mounts ==> m in Sidecar(containers, main, r).mounts) <==>
            (forall i, j :: 0 <= i < j < |mounts| && mounts[i].name == mounts[j].name ==> mounts[i] == mounts[j])
  {
    hide Sidecar;
    hide PluginContainers;
    hide IsLast;
    var containers := PluginContainers(pod.volumes, pod.containers, main);
    var mounts := MainMounts(containers, main);
    if forall i, j :: 0 <= i < j < |mounts| && mounts[i].name == mounts[j].name ==> mounts[i] == mounts[j] {
      forall m | m in mounts ensures m in Sidecar(containers, main, r).mounts {
        var i :| 0 <= i < |mounts| && mounts[i] == m;
        var l := LastOfName(mounts, m.name, i);
        SidecarMounts(pod, main, r, l);
      }
    } else {
      var i, j :| 0 <= i < j < |mounts| && mounts[i].name == mounts[j].name && mounts[i] != mounts[j];
      SidecarMountsDistinct(pod, main, r);
      assert !(mounts[i] in Sidecar(containers, main, r).mounts && mounts[j] in Sidecar(containers, main, r).mounts);
    }
  }

  lemma SidecarMountsDistinct(pod: Pod, main: string, r: Request)
    requires r.template.mounts == []
    ensures DistinctMounts(Sidecar(PluginContainers(pod.volumes, pod.containers, main), main, r).mounts)
  {
    WithMountsExactly(StartingMounts(r), MainMounts(PluginContainers(pod.volumes, pod.containers, main), main),
                      CERTIFICATES_MOUNT);
  }

  /** A volume the main container mounts twice reaches the sidecar once. */
  lemma SecondMountLost(main: Container, r: Request)
    requires main.mounts == [VolumeMount("pgdata", "/data", false), VolumeMount("pgdata", "/archive", false)]
    requires r.template.mounts == []
    ensures var volumes := [PLUGIN_VOLUME];
            var containers := PluginContainers(volumes, [main], main.name);
            VolumeMount("pgdata", "/data", false) !in Sidecar(containers, main.name, r).mounts
  {
    var volumes := [PLUGIN_VOLUME];
    assert volumes[0].name == PLUGINS;
    assert [main][1..] == [];
    assert MainMounts([main], main.name) == main.mounts + [] == main.mounts;
    assert main.mounts[1].name == "pgdata";
    SidecarMounts(Pod(volumes, [main], []), main.name, r, VolumeMount("pgdata", "/data", false));
  }

  lemma {:induction false} LastOfName(mounts: seq<VolumeMount>, name: string, i: nat) returns (l: VolumeMount)
    requires i < |mounts| && mounts[i].name == name
    ensures IsLast(mounts, l) && l.name == name && l in mounts
    decreases |mounts| - i
  {
    if j :| i < j < |mounts| && mounts[j].name == name {
      l := LastOfName(mounts, name, j);
    } else {
      l := mounts[i];
    }
  }
}
