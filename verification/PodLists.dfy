/** The lists inside a pod specification, and the edits that sidecar injection makes to them. */
module PodLists {
  import opened Prelude

  datatype EnvVar = EnvVar(name: string, value: string, source: Option<string>)
  datatype VolumeMount = VolumeMount(name: string, mountPath: string, readOnly: bool)
  datatype VolumeSource = EmptyDir | Projected(sources: seq<string>) | OtherSource(description: string)
  datatype Volume = Volume(name: string, source: VolumeSource)

  // ---------------------------------------------------------------- environment

  ghost predicate Named(env: seq<EnvVar>, name: string) {
    exists i :: 0 <= i < |env| && env[i].name == name
  }

  /** Appending, one by one, the variables whose name is not there yet. */
  ghost function Extended(env: seq<EnvVar>, more: seq<EnvVar>): seq<EnvVar>
    decreases |more|
  {
    if more == [] then env
    else Extended(if Named(env, more[0].name) then env else env + [more[0]], more[1..])
  }

  method MergeMissing(env: seq<EnvVar>, more: seq<EnvVar>) returns (r: seq<EnvVar>)
    ensures r == Extended(env, more)
  {
    r := env;
    for n := 0 to |more|
      invariant Extended(r, more[n..]) == Extended(env, more)
    {
      assert more[n..][1..] == more[n + 1..];
      var found := false;
      for i := 0 to |r|
        invariant !found
        invariant forall j :: 0 <= j < i ==> r[j].name != more[n].name
      {
        if r[i].name == more[n].name {
          found := true;
          break;
        }
      }
      if !found { r := r + [more[n]]; }
    }
  }

  /** The variables whose name is not one of these. */
  function Others(env: seq<EnvVar>, names: set<string>): (r: seq<EnvVar>)
    ensures |r| <= |env|
  {
    if env == [] then []
    else if env[0].name in names then Others(env[1..], names)
    else [env[0]] + Others(env[1..], names)
  }

  /** Each name with the first of its values: later variables of a name that was seen are dropped. */
  function FirstOccurrences(env: seq<EnvVar>): seq<EnvVar>
    decreases |env|
  {
    if env == [] then [] else [env[0]] + FirstOccurrences(Others(env[1..], {env[0].name}))
  }

  function Names(env: seq<EnvVar>): set<string> {
    set v | v in env :: v.name
  }

  lemma {:induction false} OthersTwice(env: seq<EnvVar>, a: set<string>, b: set<string>)
    ensures Others(Others(env, a), b) == Others(env, a + b)
  {
    if env != [] {
      OthersTwice(env[1..], a, b);
      if env[0].name !in a { assert Others(env, a)[1..] == Others(env[1..], a); }
    }
  }

  lemma {:induction false} OthersOfNone(env: seq<EnvVar>)
    ensures Others(env, {}) == env
  {
    if env != [] { OthersOfNone(env[1..]); }
  }

  lemma NamesAre(env: seq<EnvVar>, x: EnvVar)
    ensures Named(env, x.name) <==> x.name in Names(env)
    ensures Names(env + [x]) == Names(env) + {x.name}
  {
    if v :| v in env && v.name == x.name {
      var i :| 0 <= i < |env| && env[i] == v;
    }
  }

  /** Appending what is missing keeps the first occurrences of the names that are new. */
  lemma {:induction false} ExtendedIsFirstOccurrences(env: seq<EnvVar>, more: seq<EnvVar>)
    ensures Extended(env, more) == env + FirstOccurrences(Others(more, Names(env)))
    decreases |more|
  {
    hide Named;
    hide Names;
    if more != [] {
      var x, rest := more[0], more[1..];
      NamesAre(env, x);
      if Named(env, x.name) {
        ExtendedIsFirstOccurrences(env, rest);
      } else {
        ExtendedIsFirstOccurrences(env + [x], rest);
        OthersTwice(rest, Names(env), {x.name});
        assert Others(more, Names(env))[1..] == Others(rest, Names(env));
      }
    }
  }

  lemma {:induction false} ExtendedTwice(env: seq<EnvVar>, a: seq<EnvVar>, b: seq<EnvVar>)
    ensures Extended(Extended(env, a), b) == Extended(env, a + b)
    decreases |a|
  {
    if a == [] {
      assert a + b == b;
    } else {
      assert (a + b)[1..] == a[1..] + b;
      ExtendedTwice(if Named(env, a[0].name) then env else env + [a[0]], a[1..], b);
    }
  }

  lemma {:induction false} OthersExactly(env: seq<EnvVar>, names: set<string>, v: EnvVar)
    ensures v in Others(env, names) <==> v in env && v.name !in names
  {
    if env != [] { OthersExactly(env[1..], names, v); }
  }

  ghost predicate IsFirst(env: seq<EnvVar>, v: EnvVar) {
    exists i :: 0 <= i < |env| && env[i] == v && forall j :: 0 <= j < i ==> env[j].name != v.name
  }

  /** Being first of a name among the others is being first of that name. */
  lemma {:induction false} FirstAmongOthers(env: seq<EnvVar>, names: set<string>, v: EnvVar)
    requires v.name !in names
    ensures IsFirst(Others(env, names), v) <==> IsFirst(env, v)
  {
    if env != [] {
      FirstAmongOthers(env[1..], names, v);
      FirstStep(env, v);
      if env[0].name !in names {
        FirstStep(Others(env, names), v);
        assert Others(env, names)[1..] == Others(env[1..], names);
      }
    }
  }

  lemma FirstStep(env: seq<EnvVar>, v: EnvVar)
    requires env != []
    ensures IsFirst(env, v) <==> env[0] == v || (env[0].name != v.name && IsFirst(env[1..], v))
  {
    if env[0].name != v.name && IsFirst(env[1..], v) {
      var i :| 0 <= i < |env[1..]| && env[1..][i] == v && forall j :: 0 <= j < i ==> env[1..][j].name != v.name;
      assert env[i + 1] == v;
      forall j | 0 <= j < i + 1 ensures env[j].name != v.name {
        if j > 0 { assert env[1..][j - 1] == env[j]; }
      }
    }
    if IsFirst(env, v) && env[0] != v {
      var i :| 0 <= i < |env| && env[i] == v && forall j :: 0 <= j < i ==> env[j].name != v.name;
      assert env[1..][i - 1] == v;
      assert forall j :: 0 <= j < i - 1 ==> env[1..][j] == env[j + 1];
    }
  }

  /** The first occurrences hold exactly the first variable of each name, each name once. */
  lemma {:induction false} FirstOccurrencesExactly(env: seq<EnvVar>, v: EnvVar)
    ensures v in FirstOccurrences(env) <==> IsFirst(env, v)
    ensures forall i, j :: 0 <= i < j < |FirstOccurrences(env)| ==>
              FirstOccurrences(env)[i].name != FirstOccurrences(env)[j].name
    decreases |env|
  {
    if env != [] {
      var rest := Others(env[1..], {env[0].name});
      FirstOccurrencesExactly(rest, v);
      FirstStep(env, v);
      if v.name != env[0].name {
        FirstAmongOthers(env[1..], {env[0].name}, v);
      } else {
        OthersExactly(env[1..], {env[0].name}, v);
        assert IsFirst(rest, v) ==> v in rest;
      }
      forall w | w in FirstOccurrences(rest) ensures w.name != env[0].name {
        FirstOccurrencesExactly(rest, w);
        OthersExactly(env[1..], {env[0].name}, w);
        assert w in rest;
      }
    }
  }

  // ---------------------------------------------------------------- volume mounts

  /** Whether some mount has this name. */
  ghost predicate Mounts(mounts: seq<VolumeMount>, name: string) {
    exists i :: 0 <= i < |mounts| && mounts[i].name == name
  }

  /** The first mount of the same name is replaced, or the mount is appended. */
  function WithMount(mounts: seq<VolumeMount>, mount: VolumeMount): seq<VolumeMount> {
    if mounts == [] then [mount]
    else if mounts[0].name == mount.name then [mount] + mounts[1..]
    else [mounts[0]] + WithMount(mounts[1..], mount)
  }

  function WithMounts(mounts: seq<VolumeMount>, more: seq<VolumeMount>): seq<VolumeMount>
    decreases |more|
  {
    if more == [] then mounts else WithMounts(WithMount(mounts, more[0]), more[1..])
  }

  lemma {:induction false} WithMountAt(mounts: seq<VolumeMount>, mount: VolumeMount, i: nat)
    requires i <= |mounts|
    requires forall j :: 0 <= j < i ==> mounts[j].name != mount.name
    requires i < |mounts| ==> mounts[i].name == mount.name
    ensures WithMount(mounts, mount) == if i < |mounts| then mounts[i := mount] else mounts + [mount]
  {
    if i > 0 { WithMountAt(mounts[1..], mount, i - 1); }
  }

  method EnsureVolumeMount(mounts: seq<VolumeMount>, volumeMounts: seq<VolumeMount>) returns (r: seq<VolumeMount>)
    ensures r == WithMounts(mounts, volumeMounts)
  {
    r := mounts;
    for n := 0 to |volumeMounts|
      invariant WithMounts(r, volumeMounts[n..]) == WithMounts(mounts, volumeMounts)
    {
      var mount := volumeMounts[n];
      assert volumeMounts[n..][1..] == volumeMounts[n + 1..];
      ghost var before := r;
      var mountFound := false;
      for i := 0 to |r|
        invariant !mountFound && r == before
        invariant forall j :: 0 <= j < i ==> r[j].name != mount.name
      {
        if r[i].name == mount.name {
          mountFound := true;
          WithMountAt(r, mount, i);
          r := r[i := mount];
          break;
        }
      }
      if !mountFound {
        WithMountAt(r, mount, |r|);
        r := r + [mount];
      }
    }
  }

  lemma {:induction false} WithMountsTwice(mounts: seq<VolumeMount>, a: seq<VolumeMount>, b: seq<VolumeMount>)
    ensures WithMounts(WithMounts(mounts, a), b) == WithMounts(mounts, a + b)
    decreases |a|
  {
    if a == [] {
      assert a + b == b;
    } else {
      assert (a + b)[1..] == a[1..] + b;
      WithMountsTwice(WithMount(mounts, a[0]), a[1..], b);
    }
  }

  ghost predicate DistinctMounts(mounts: seq<VolumeMount>) {
    forall i, j :: 0 <= i < j < |mounts| ==> mounts[i].name != mounts[j].name
  }

  lemma {:induction false} WithMountExactly(mounts: seq<VolumeMount>, mount: VolumeMount, m: VolumeMount)
    requires DistinctMounts(mounts)
    ensures m in WithMount(mounts, mount) <==> m == mount || (m in mounts && m.name != mount.name)
    ensures DistinctMounts(WithMount(mounts, mount))
  {
    var i := 0;
    while i < |mounts| && mounts[i].name != mount.name
      invariant i <= |mounts|
      invariant forall j :: 0 <= j < i ==> mounts[j].name != mount.name
    {
      i := i + 1;
    }
    WithMountAt(mounts, mount, i);
    var r := WithMount(mounts, mount);
    assert r[i] == mount;
    assert forall j :: 0 <= j < |mounts| && j != i ==> r[j] == mounts[j];
    if m in mounts && m.name != mount.name {
      var j :| 0 <= j < |mounts| && mounts[j] == m;
      assert r[j] == m;
    }
  }

  /** `m` is the last mount of its name in the list. */
  ghost predicate IsLast(mounts: seq<VolumeMount>, m: VolumeMount) {
    exists i :: 0 <= i < |mounts| && mounts[i] == m && forall j :: i < j < |mounts| ==> mounts[j].name != m.name
  }

  lemma LastStep(mounts: seq<VolumeMount>, m: VolumeMount)
    requires mounts != []
    ensures IsLast(mounts, m) <==> IsLast(mounts[1..], m) || (mounts[0] == m && !Mounts(mounts[1..], m.name))
    ensures Mounts(mounts, m.name) <==> mounts[0].name == m.name || Mounts(mounts[1..], m.name)
  {
    var rest := mounts[1..];
    assert forall i :: 0 < i < |mounts| ==> mounts[i] == rest[i - 1];
    assert forall i :: 0 <= i < |rest| ==> rest[i] == mounts[i + 1];
    if IsLast(rest, m) {
      var i :| 0 <= i < |rest| && rest[i] == m && forall j :: i < j < |rest| ==> rest[j].name != m.name;
      assert mounts[i + 1] == m;
    }
  }

  /** The mounts ensured are the last of each name; the earlier ones stay if no new one has their name. */
  lemma {:induction false} WithMountsExactly(mounts: seq<VolumeMount>, more: seq<VolumeMount>, m: VolumeMount)
    requires DistinctMounts(mounts)
    ensures m in WithMounts(mounts, more) <==> IsLast(more, m) || (m in mounts && !Mounts(more, m.name))
    ensures DistinctMounts(WithMounts(mounts, more))
    decreases |more|
  {
    if more != [] {
      WithMountExactly(mounts, more[0], m);
      WithMountsExactly(WithMount(mounts, more[0]), more[1..], m);
      LastStep(more, m);
    }
  }

  function WithoutMount(mounts: seq<VolumeMount>, name: string): seq<VolumeMount> {
    if mounts == [] then []
    else
      var last := mounts[|mounts| - 1];
      WithoutMount(mounts[..|mounts| - 1], name) + if last.name == name then [] else [last]
  }

  method RemoveVolumeMount(mounts: seq<VolumeMount>, name: string) returns (r: seq<VolumeMount>)
    ensures r == WithoutMount(mounts, name)
  {
    r := [];
    for n := 0 to |mounts|
      invariant r == WithoutMount(mounts[..n], name)
    {
      assert mounts[..n + 1][..n] == mounts[..n];
      if mounts[n].name != name { r := r + [mounts[n]]; }
    }
    assert mounts[..|mounts|] == mounts;
  }

  // ---------------------------------------------------------------- volumes

  ghost predicate HasVolume(volumes: seq<Volume>, name: string) {
    exists i :: 0 <= i < |volumes| && volumes[i].name == name
  }

  function Replaced(volumes: seq<Volume>, volume: Volume): seq<Volume> {
    seq(|volumes|, i requires 0 <= i < |volumes| => if volumes[i].name == volume.name then volume else volumes[i])
  }

  /** Every volume of the same name is replaced, or the volume is appended. */
  ghost function WithVolume(volumes: seq<Volume>, volume: Volume): seq<Volume> {
    if HasVolume(volumes, volume.name) then Replaced(volumes, volume) else volumes + [volume]
  }

  function WithoutVolume(volumes: seq<Volume>, name: string): seq<Volume> {
    if volumes == [] then []
    else if volumes[0].name == name then WithoutVolume(volumes[1..], name)
    else [volumes[0]] + WithoutVolume(volumes[1..], name)
  }

  method EnsureVolume(volumes: seq<Volume>, volume: Volume) returns (r: seq<Volume>)
    ensures r == WithVolume(volumes, volume)
  {
    r := volumes;
    var volumeFound := false;
    for i := 0 to |r|
      invariant |r| == |volumes|
      invariant r[..i] == Replaced(volumes, volume)[..i] && r[i..] == volumes[i..]
      invariant volumeFound <==> exists j :: 0 <= j < i && volumes[j].name == volume.name
    {
      assert r[i] == volumes[i];
      if r[i].name == volume.name {
        volumeFound := true;
        r := r[i := volume];
      }
    }
    assert !volumeFound ==> Replaced(volumes, volume) == volumes;
    if !volumeFound { r := r + [volume]; }
  }

  lemma {:induction false} WithoutConcat(a: seq<Volume>, b: seq<Volume>, name: string)
    ensures WithoutVolume(a + b, name) == WithoutVolume(a, name) + WithoutVolume(b, name)
  {
    if a == [] {
      assert a + b == b;
    } else {
      assert (a + b)[1..] == a[1..] + b;
      WithoutConcat(a[1..], b, name);
    }
  }

  method RemoveVolume(volumes: seq<Volume>, name: string) returns (r: seq<Volume>)
    ensures r == WithoutVolume(volumes, name)
  {
    r := [];
    for n := 0 to |volumes|
      invariant r == WithoutVolume(volumes[..n], name)
    {
      assert volumes[..n + 1] == volumes[..n] + [volumes[n]];
      WithoutConcat(volumes[..n], [volumes[n]], name);
      if volumes[n].name != name { r := r + [volumes[n]]; }
    }
    assert volumes[..|volumes|] == volumes;
  }

  lemma {:induction false} WithoutExactly(volumes: seq<Volume>, name: string, v: Volume)
    ensures v in WithoutVolume(volumes, name) <==> v in volumes && v.name != name
  {
    if volumes != [] { WithoutExactly(volumes[1..], name, v); }
  }

  lemma HasVolumeBy(volumes: seq<Volume>, name: string)
    ensures HasVolume(volumes, name) <==> exists v :: v in volumes && v.name == name
  {
    if v :| v in volumes && v.name == name {
      var i :| 0 <= i < |volumes| && volumes[i] == v;
      assert volumes[i].name == name;
    }
  }

  function Count(volumes: seq<Volume>, name: string): nat {
    if volumes == [] then 0 else (if volumes[0].name == name then 1 else 0) + Count(volumes[1..], name)
  }

  lemma {:induction false} CountHas(volumes: seq<Volume>, name: string)
    ensures Count(volumes, name) > 0 <==> HasVolume(volumes, name)
  {
    if volumes != [] {
      CountHas(volumes[1..], name);
      assert forall i :: 0 < i < |volumes| ==> volumes[i] == volumes[1..][i - 1];
      assert forall i :: 0 <= i < |volumes[1..]| ==> volumes[1..][i] == volumes[i + 1];
    }
  }

  lemma {:induction false} ReplacedCopies(volumes: seq<Volume>, volume: Volume, v: Volume)
    ensures multiset(Replaced(volumes, volume))[v] ==
            multiset(WithoutVolume(volumes, volume.name))[v] + if v == volume then Count(volumes, volume.name) else 0
  {
    if volumes == [] {
      assert Replaced(volumes, volume) == [];
    } else {
      var first, rest := if volumes[0].name == volume.name then volume else volumes[0], volumes[1..];
      ReplacedCopies(rest, volume, v);
      assert Replaced(volumes, volume) == [first] + Replaced(rest, volume);
    }
  }

  /** Replacing is removing and adding as many copies. */
  lemma ReplacedIsSwapped(volumes: seq<Volume>, volume: Volume)
    ensures multiset(Replaced(volumes, volume)) ==
            multiset(WithoutVolume(volumes, volume.name)) + multiset{}[volume := Count(volumes, volume.name)]
  {
    forall v: Volume
      ensures multiset(Replaced(volumes, volume))[v] ==
              (multiset(WithoutVolume(volumes, volume.name)) + multiset{}[volume := Count(volumes, volume.name)])[v]
    {
      ReplacedCopies(volumes, volume, v);
    }
  }
}
