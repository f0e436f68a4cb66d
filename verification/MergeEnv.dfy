/** Merging environment variables of the form KEY=VALUE. */
module MergeEnv {
  import opened Prelude

  /** The text up to and with the first '=', if there is one. */
  function KeyPart(item: string): Option<string> {
    if item == [] then None
    else if item[0] == '=' then Some("=")
    else
      match KeyPart(item[1..])
      case None => None
      case Some(rest) => Some([item[0]] + rest)
  }

  lemma {:induction false} KeyPartShape(item: string)
    ensures KeyPart(item).Some? ==>
              var k := KeyPart(item).value;
              k != [] && k <= item && k[|k| - 1] == '=' && forall i :: 0 <= i < |k| - 1 ==> k[i] != '='
    ensures KeyPart(item).None? ==> '=' !in item
  {
    if item != [] && item[0] != '=' {
      KeyPartShape(item[1..]);
      assert item == [item[0]] + item[1..];
    }
  }

  /** A prefix that ends at the first '=' is the key part. */
  lemma {:induction false} KeyPartIsFirst(item: string, k: string)
    requires k != [] && k <= item && k[|k| - 1] == '='
    requires forall i :: 0 <= i < |k| - 1 ==> k[i] != '='
    ensures KeyPart(item) == Some(k)
  {
    if |k| == 1 {
      assert k == [item[0]];
    } else {
      KeyPartIsFirst(item[1..], k[1..]);
      assert k == [item[0]] + k[1..];
    }
  }

  /** Starting with the key part of another item means having the same key. */
  lemma {:induction false} PrefixIsKey(item: string, other: string)
    requires KeyPart(other).Some?
    ensures KeyPart(other).value <= item <==> KeyPart(item) == KeyPart(other)
  {
    KeyPartShape(item);
    KeyPartShape(other);
    if KeyPart(other).value <= item { KeyPartIsFirst(item, KeyPart(other).value); }
  }

  predicate SameKey(a: string, b: string) {
    KeyPart(a).Some? && KeyPart(a) == KeyPart(b)
  }

  predicate Binds(env: seq<string>, item: string) {
    exists i :: 0 <= i < |env| && SameKey(item, env[i])
  }

  /** One incoming item: every entry with its key is replaced, or the item is appended. */
  function Put(env: seq<string>, item: string): seq<string> {
    if KeyPart(item).None? then env
    else if Binds(env, item) then
      seq(|env|, i requires 0 <= i < |env| => if SameKey(item, env[i]) then item else env[i])
    else env + [item]
  }

  function Merged(env: seq<string>, incoming: seq<string>): seq<string> {
    if incoming == [] then env else Put(Merged(env, incoming[..|incoming| - 1]), incoming[|incoming| - 1])
  }

  method MergeEnv(env: seq<string>, incomingEnv: seq<string>) returns (result: seq<string>)
    ensures result == Merged(env, incomingEnv)
  {
    result := env;
    for n := 0 to |incomingEnv|
      invariant result == Merged(env, incomingEnv[..n])
    {
      assert incomingEnv[..n + 1][..n] == incomingEnv[..n];
      var item := incomingEnv[n];
      var key := KeyPart(item);
      if key.None? { continue; }
      ghost var before := result;
      var found := false;
      for idx := 0 to |result|
        invariant |result| == |before|
        invariant forall j :: idx <= j < |before| ==> result[j] == before[j]
        invariant forall j :: 0 <= j < idx ==> result[j] == if SameKey(item, before[j]) then item else before[j]
        invariant found <==> exists j :: 0 <= j < idx && SameKey(item, before[j])
      {
        PrefixIsKey(result[idx], item);
        if key.value <= result[idx] {
          result := result[idx := item];
          found := true;
        }
      }
      if !found { result := result + [item]; }
      assert result == Put(before, item);
    }
    assert incomingEnv[..|incomingEnv|] == incomingEnv;
  }

  // ---------------------------------------------------------------- merging is overriding

  /** The last item with the key of `item`, or `item` itself. */
  function Override(incoming: seq<string>, item: string): string {
    if incoming == [] then item
    else if SameKey(item, incoming[|incoming| - 1]) then incoming[|incoming| - 1]
    else Override(incoming[..|incoming| - 1], item)
  }

  /** The first items of each key that `env` does not bind, in order. */
  function NewItems(env: seq<string>, incoming: seq<string>): seq<string> {
    if incoming == [] then []
    else
      var earlier := NewItems(env, incoming[..|incoming| - 1]);
      var last := incoming[|incoming| - 1];
      if KeyPart(last).None? || Binds(env, last) || Binds(earlier, last) then earlier else earlier + [last]
  }

  function Overridden(env: seq<string>, incoming: seq<string>): (r: seq<string>)
    ensures |r| == |env|
  {
    seq(|env|, i requires 0 <= i < |env| => Override(incoming, env[i]))
  }

  lemma {:induction false} OverrideKeepsKey(incoming: seq<string>, item: string)
    ensures KeyPart(Override(incoming, item)) == KeyPart(item)
  {
    if incoming != [] { OverrideKeepsKey(incoming[..|incoming| - 1], item); }
  }

  /**
   * Merging overrides: each entry takes the last incoming value of its key and keeps its place, and
   * keys that were not bound are appended in the order of their first occurrence, with their last
   * value; incoming items without '=' are dropped.
   */
  lemma {:induction false} MergeIsOverride(env: seq<string>, incoming: seq<string>)
    ensures Merged(env, incoming) == Overridden(env + NewItems(env, incoming), incoming)
  {
    if incoming == [] {
      assert env + NewItems(env, incoming) == env;
    } else {
      var n := |incoming| - 1;
      var earlier, last := incoming[..n], incoming[n];
      MergeIsOverride(env, earlier);
      var items := env + NewItems(env, earlier);
      var before := Overridden(items, earlier);
      forall i | 0 <= i < |items|
        ensures SameKey(last, before[i]) <==> SameKey(last, items[i])
        ensures Override(incoming, items[i]) == if SameKey(last, before[i]) then last else before[i]
      {
        OverrideKeepsKey(earlier, items[i]);
      }
      if KeyPart(last).Some? && !Binds(before, last) {
        NotBoundIsNew(env, NewItems(env, earlier), last, before);
        OverrideSelf(earlier, last);
      } else if KeyPart(last).Some? {
        BoundIsOld(env, NewItems(env, earlier), last, before);
      }
      assert Put(before, last) == Overridden(env + NewItems(env, incoming), incoming);
    }
  }

  lemma OverrideSelf(earlier: seq<string>, last: string)
    requires KeyPart(last).Some?
    ensures Override(earlier + [last], last) == last
  {
    assert (earlier + [last])[|earlier|] == last;
  }

  lemma NotBoundIsNew(env: seq<string>, added: seq<string>, last: string, before: seq<string>)
    requires |before| == |env + added| && !Binds(before, last)
    requires forall i :: 0 <= i < |before| ==> (SameKey(last, before[i]) <==> SameKey(last, (env + added)[i]))
    ensures !Binds(env, last) && !Binds(added, last)
  {
    assert forall i :: 0 <= i < |env| ==> (env + added)[i] == env[i];
    assert forall i :: 0 <= i < |added| ==> (env + added)[|env| + i] == added[i];
  }

  lemma BoundIsOld(env: seq<string>, added: seq<string>, last: string, before: seq<string>)
    requires |before| == |env + added| && Binds(before, last)
    requires forall i :: 0 <= i < |before| ==> (SameKey(last, before[i]) <==> SameKey(last, (env + added)[i]))
    ensures Binds(env, last) || Binds(added, last)
  {
    var i :| 0 <= i < |before| && SameKey(last, before[i]);
    assert (env + added)[i] == if i < |env| then env[i] else added[i - |env|];
  }

  lemma {:induction false} OverrideIsIdempotent(incoming: seq<string>, item: string)
    ensures Override(incoming, Override(incoming, item)) == Override(incoming, item)
  {
    OverrideKeepsKey(incoming, item);
    if incoming != [] && !SameKey(item, incoming[|incoming| - 1]) {
      OverrideIsIdempotent(incoming[..|incoming| - 1], item);
    }
  }

  lemma {:induction false} NothingNew(env: seq<string>, incoming: seq<string>)
    requires forall i :: 0 <= i < |incoming| && KeyPart(incoming[i]).Some? ==> Binds(env, incoming[i])
    ensures NewItems(env, incoming) == []
  {
    if incoming != [] { NothingNew(env, incoming[..|incoming| - 1]); }
  }

  /** Every incoming key is bound afterwards. */
  lemma {:induction false} MergedBindsAll(env: seq<string>, incoming: seq<string>, i: nat)
    requires i < |incoming| && KeyPart(incoming[i]).Some?
    ensures Binds(Merged(env, incoming), incoming[i])
  {
    var before, last := Merged(env, incoming[..|incoming| - 1]), incoming[|incoming| - 1];
    var after := Put(before, last);
    if i < |incoming| - 1 {
      MergedBindsAll(env, incoming[..|incoming| - 1], i);
      var j :| 0 <= j < |before| && SameKey(incoming[i], before[j]);
      assert SameKey(incoming[i], after[j]);
    } else if Binds(before, last) {
      var j :| 0 <= j < |before| && SameKey(last, before[j]);
      assert after[j] == last;
    } else {
      assert after[|before|] == last;
    }
  }

  /** Merging the same list twice changes nothing. */
  lemma MergeIsIdempotent(env: seq<string>, incoming: seq<string>)
    ensures Merged(Merged(env, incoming), incoming) == Merged(env, incoming)
  {
    var once := Merged(env, incoming);
    MergeIsOverride(env, incoming);
    MergeIsOverride(once, incoming);
    forall i | 0 <= i < |incoming| && KeyPart(incoming[i]).Some? ensures Binds(once, incoming[i]) {
      MergedBindsAll(env, incoming, i);
    }
    NothingNew(once, incoming);
    forall i | 0 <= i < |once| ensures Override(incoming, once[i]) == once[i] {
      OverrideIsIdempotent(incoming, (env + NewItems(env, incoming))[i]);
    }
    assert once + NewItems(once, incoming) == once;
  }
}
