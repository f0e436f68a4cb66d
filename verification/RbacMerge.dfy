/** Merging the desired labels and Subjects into existing objects, and the patches that carry the result. */
module RbacMerge {
  import opened Prelude
  import opened RoleSpecs

  type Labels = map<string, string>

  // ---------------------------------------------------------------- labels

  /** Reading a missing key of a Go map gives the empty string. */
  function ValueOf(labels: Labels, key: string): string {
    if key in labels then labels[key] else ""
  }

  predicate LabelsNeedUpdate(existing: Labels, desired: Labels) {
    exists k :: k in desired && ValueOf(existing, k) != desired[k]
  }

  lemma PutKnown<K, V>(m: map<K, V>, desired: map<K, V>, k: K)
    requires k in desired
    ensures m[k := desired[k]] + desired == m + desired
  {
  }

  lemma Absorbs<K, V>(m: map<K, V>, desired: map<K, V>)
    requires forall k :: k in desired ==> k in m && m[k] == desired[k]
    ensures m + desired == m
  {
  }

  /** The loop over the desired labels, in any order. */
  method CheckLabels(existing: Labels, desired: Labels) returns (needed: bool)
    ensures needed <==> LabelsNeedUpdate(existing, desired)
  {
    var todo := desired.Keys;
    while todo != {}
      invariant todo <= desired.Keys
      invariant forall k :: k in desired && k !in todo ==> ValueOf(existing, k) == desired[k]
      decreases |todo|
    {
      var k :| k in todo;
      if ValueOf(existing, k) != desired[k] { return true; }
      todo := todo - {k};
    }
    needed := false;
  }

  /** Sets the desired keys one by one and leaves every other key alone. */
  method MergeLabels(existing: Labels, desired: Labels) returns (merged: Labels)
    ensures merged == existing + desired
  {
    merged := existing;
    var todo := desired.Keys;
    while todo != {}
      invariant todo <= desired.Keys
      invariant merged + desired == existing + desired
      invariant forall k :: k in desired && k !in todo ==> k in merged && merged[k] == desired[k]
      decreases |todo|
    {
      var k :| k in todo;
      PutKnown(merged, desired, k);
      merged := merged[k := desired[k]];
      todo := todo - {k};
    }
    Absorbs(merged, desired);
  }

  /**
   * The test for a label update agrees with what merging would change, whatever the existing
   * labels are, exactly when no desired value is empty.
   */
  lemma LabelTestExactly(desired: Labels)
    ensures (forall existing: Labels :: LabelsNeedUpdate(existing, desired) <==> existing + desired != existing) <==>
            (forall k :: k in desired ==> desired[k] != "")
  {
    if k :| k in desired && desired[k] == "" {
      var existing := desired - {k};
      assert k in existing + desired && k !in existing;
      assert !LabelsNeedUpdate(existing, desired);
    } else {
      forall existing: Labels ensures LabelsNeedUpdate(existing, desired) <==> existing + desired != existing {
        if !LabelsNeedUpdate(existing, desired) {
          assert existing + desired == existing;
        } else {
          var k :| k in desired && ValueOf(existing, k) != desired[k];
          assert (existing + desired)[k] == desired[k];
        }
      }
    }
  }

  /** A missing label whose desired value is empty is never added. */
  lemma EmptyLabelIsMissed()
    ensures !LabelsNeedUpdate(map[], map["tier" := ""]) && map[] + map["tier" := ""] != map[]
  {
    assert "tier" in map[] + map["tier" := ""];
  }

  // ---------------------------------------------------------------- Subjects

  function MergedSubjects(existing: seq<Subject>, desired: seq<Subject>): seq<Subject> {
    if desired == [] then existing
    else
      var earlier := MergedSubjects(existing, desired[..|desired| - 1]);
      var last := desired[|desired| - 1];
      if last in earlier then earlier else earlier + [last]
  }

  method ContainsSubject(subjects: seq<Subject>, subject: Subject) returns (found: bool)
    ensures found <==> subject in subjects
  {
    for i := 0 to |subjects|
      invariant subject !in subjects[..i]
    {
      if subjects[i] == subject { return true; }
    }
    found := false;
  }

  method MergeSubjects(existing: seq<Subject>, desired: seq<Subject>) returns (merged: seq<Subject>)
    ensures merged == MergedSubjects(existing, desired)
  {
    merged := existing;
    for i := 0 to |desired|
      invariant merged == MergedSubjects(existing, desired[..i])
    {
      assert desired[..i + 1][..i] == desired[..i];
      var found := ContainsSubject(merged, desired[i]);
      if !found { merged := merged + [desired[i]]; }
    }
    assert desired[..|desired|] == desired;
  }

  /** No Subject is lost or moved, every desired one is there, and nothing is added twice. */
  lemma {:induction false} MergedSubjectsShape(existing: seq<Subject>, desired: seq<Subject>)
    ensures var merged := MergedSubjects(existing, desired);
            && existing <= merged
            && (forall d :: d in desired ==> d in merged)
            && (forall i :: |existing| <= i < |merged| ==> merged[i] in desired && merged[i] !in merged[..i])
  {
    if desired != [] {
      var n := |desired| - 1;
      MergedSubjectsShape(existing, desired[..n]);
      var earlier := MergedSubjects(existing, desired[..n]);
      var merged := MergedSubjects(existing, desired);
      forall i | |existing| <= i < |merged| ensures merged[i] in desired && merged[i] !in merged[..i] {
        if i < |earlier| {
          assert merged[..i] == earlier[..i];
        } else {
          assert merged[..i] == earlier;
        }
      }
    }
  }

  lemma {:induction false} MergeKeepsComplete(existing: seq<Subject>, desired: seq<Subject>)
    requires forall d :: d in desired ==> d in existing
    ensures MergedSubjects(existing, desired) == existing
  {
    if desired != [] { MergeKeepsComplete(existing, desired[..|desired| - 1]); }
  }

  // ---------------------------------------------------------------- role bindings

  predicate BindingNeedsUpdate(existing: Binding, desired: Binding) {
    (exists i :: 0 <= i < |desired.subjects| && desired.subjects[i] !in existing.subjects) ||
    LabelsNeedUpdate(existing.labels, desired.labels)
  }

  method CheckRoleBinding(existing: Binding, desired: Binding) returns (needed: bool)
    ensures needed <==> BindingNeedsUpdate(existing, desired)
  {
    for i := 0 to |desired.subjects|
      invariant forall j :: 0 <= j < i ==> desired.subjects[j] in existing.subjects
    {
      var contained := ContainsSubject(existing.subjects, desired.subjects[i]);
      if !contained { return true; }
    }
    needed := CheckLabels(existing.labels, desired.labels);
  }

  function MergedBinding(existing: Binding, desired: Binding): Binding {
    Binding(existing.labels + desired.labels,
            MergedSubjects(existing.subjects, desired.subjects),
            existing.roleRef)
  }

  lemma MergedBindingNeedsNothing(existing: Binding, desired: Binding)
    ensures !BindingNeedsUpdate(MergedBinding(existing, desired), desired)
  {
    MergedSubjectsShape(existing.subjects, desired.subjects);
  }

  /**
   * The test for a RoleBinding update agrees with what merging would change, whatever the existing
   * object is, exactly when no desired label value is empty.
   */
  lemma BindingTestExactly(desired: Binding)
    ensures (forall existing: Binding ::
               BindingNeedsUpdate(existing, desired) <==> MergedBinding(existing, desired) != existing) <==>
            (forall k :: k in desired.labels ==> desired.labels[k] != "")
  {
    if k :| k in desired.labels && desired.labels[k] == "" {
      var existing := desired.(labels := desired.labels - {k});
      assert k in MergedBinding(existing, desired).labels && k !in existing.labels;
      assert !BindingNeedsUpdate(existing, desired);
    } else {
      LabelTestExactly(desired.labels);
      forall existing: Binding
        ensures BindingNeedsUpdate(existing, desired) <==> MergedBinding(existing, desired) != existing
      {
        MergedSubjectsShape(existing.subjects, desired.subjects);
        if forall d :: d in desired.subjects ==> d in existing.subjects {
          MergeKeepsComplete(existing.subjects, desired.subjects);
        }
      }
    }
  }

  // ---------------------------------------------------------------- JSON merge patches

  /** A merge patch of labels: per key a new value, or None to remove the key. */
  type LabelPatch = map<string, Option<string>>

  function LabelDiff(before: Labels, after: Labels): LabelPatch {
    map k | k in before.Keys + after.Keys && (k !in before || k !in after || before[k] != after[k]) ::
      if k in after then Some(after[k]) else None
  }

  function PatchLabels(labels: Labels, patch: LabelPatch): Labels {
    map k | k in labels.Keys + patch.Keys && (k in patch ==> patch[k].Some?) ::
      if k in patch then patch[k].value else labels[k]
  }

  /** Arrays are replaced whole; absent parts stay. */
  datatype RolePatch = RolePatch(labels: LabelPatch, rules: Option<seq<PolicyRule>>)
  datatype BindingPatch = BindingPatch(labels: LabelPatch, subjects: Option<seq<Subject>>)

  function RoleDiff(before: Role, after: Role): RolePatch {
    RolePatch(LabelDiff(before.labels, after.labels), if before.rules == after.rules then None else Some(after.rules))
  }

  function PatchRole(role: Role, patch: RolePatch): Role {
    Role(PatchLabels(role.labels, patch.labels), if patch.rules.Some? then patch.rules.value else role.rules)
  }

  function BindingDiff(before: Binding, after: Binding): BindingPatch {
    BindingPatch(LabelDiff(before.labels, after.labels),
                 if before.subjects == after.subjects then None else Some(after.subjects))
  }

  function PatchBinding(binding: Binding, patch: BindingPatch): Binding {
    Binding(PatchLabels(binding.labels, patch.labels),
            if patch.subjects.Some? then patch.subjects.value else binding.subjects,
            binding.roleRef)
  }

  lemma LabelPatchReproduces(before: Labels, after: Labels)
    ensures PatchLabels(before, LabelDiff(before, after)) == after
  {
  }

  /** A patch applied to the object it was computed from gives the object it was computed for. */
  lemma RolePatchReproduces(before: Role, after: Role)
    ensures PatchRole(before, RoleDiff(before, after)) == after
  {
    LabelPatchReproduces(before.labels, after.labels);
  }

  lemma BindingPatchReproduces(before: Binding, after: Binding)
    requires before.roleRef == after.roleRef
    ensures PatchBinding(before, BindingDiff(before, after)) == after
  {
    LabelPatchReproduces(before.labels, after.labels);
  }

  /**
   * Applied to an object that moved on since it was read, the patch of the merge keeps that
   * object's Subjects exactly when it carries no Subjects or all of them were known to the reader.
   * The version check is what rules the other case out.
   */
  lemma UnlockedPatchKeepsSubjectsExactly(read: Binding, desired: Binding, current: Binding)
    ensures (forall s :: s in current.subjects ==>
               s in PatchBinding(current, BindingDiff(read, MergedBinding(read, desired))).subjects) <==>
            (forall d :: d in desired.subjects ==> d in read.subjects) ||
            (forall s :: s in current.subjects ==> s in read.subjects || s in desired.subjects)
  {
    MergedSubjectsShape(read.subjects, desired.subjects);
    var merged := MergedSubjects(read.subjects, desired.subjects);
    if forall d :: d in desired.subjects ==> d in read.subjects {
      MergeKeepsComplete(read.subjects, desired.subjects);
    } else {
      var d :| d in desired.subjects && d !in read.subjects;
      assert merged != read.subjects;
      forall s ensures s in merged <==> s in read.subjects || s in desired.subjects {
        if s in merged {
          var i :| 0 <= i < |merged| && merged[i] == s;
          assert i < |read.subjects| ==> merged[i] == read.subjects[i];
        }
      }
    }
  }
}
