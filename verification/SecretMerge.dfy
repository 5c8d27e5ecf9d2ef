/** Per-stack secrets layered over a service's compose environment ("KEY=VALUE" entries, later ones win). */
module SecretMerge {
  import opened Text

  datatype Secret = Secret(name: string, value: string)

  /** Everything up to the first '=', or the whole entry. */
  function KeyOf(entry: string): (key: string)
    ensures '=' !in key
  {
    var eq := IndexOf(entry, '=');
    if eq >= 0 then entry[..eq] else entry
  }

  function Assignment(key: string, value: string): string {
    key + "=" + value
  }

  lemma KeyOfAssignment(key: string, value: string)
    requires '=' !in key
    ensures KeyOf(Assignment(key, value)) == key
  {
    IndexOfAt(key, '=', value);
    assert Assignment(key, value)[..|key|] == key;
  }

  /** The value each name ends up with: the last secret of that name. */
  function ByName(secrets: seq<Secret>): map<string, string> {
    if secrets == [] then map[]
    else
      var last := secrets[|secrets| - 1];
      ByName(secrets[..|secrets| - 1])[last.name := last.value]
  }

  function Overridden(entry: string, byName: map<string, string>): string {
    if KeyOf(entry) in byName then Assignment(KeyOf(entry), byName[KeyOf(entry)]) else entry
  }

  function Override(env: seq<string>, byName: map<string, string>): seq<string> {
    seq(|env|, i requires 0 <= i < |env| => Overridden(env[i], byName))
  }

  function Keys(env: seq<string>): set<string> {
    set e | e in env :: KeyOf(e)
  }

  /** The secrets whose name is not taken, as entries, in order. */
  function Appended(secrets: seq<Secret>, taken: set<string>): seq<string> {
    if secrets == [] then []
    else
      var last := secrets[|secrets| - 1];
      Appended(secrets[..|secrets| - 1], taken)
      + (if last.name in taken then [] else [Assignment(last.name, last.value)])
  }

  /** What mergeSecretsIntoEnv returns. */
  function Merge(env: seq<string>, secrets: seq<Secret>): seq<string> {
    Override(env, ByName(secrets)) + Appended(secrets, Keys(env))
  }

  method IndexByName(secrets: seq<Secret>) returns (bySecretName: map<string, string>)
    ensures bySecretName == ByName(secrets)
  {
    bySecretName := map[];
    for i := 0 to |secrets|
      invariant bySecretName == ByName(secrets[..i])
    {
      assert secrets[..i + 1][..i] == secrets[..i];
      bySecretName := bySecretName[secrets[i].name := secrets[i].value];
    }
    assert secrets[..|secrets|] == secrets;
  }

  /** The loop over the compose entries: replaces in place and remembers which names were replaced. */
  method ReplaceInPlace(composeEnv: seq<string>, bySecretName: map<string, string>)
      returns (out: seq<string>, overridden: set<string>)
    ensures out == Override(composeEnv, bySecretName)
    ensures overridden == Keys(composeEnv) * bySecretName.Keys
  {
    out, overridden := [], {};
    for i := 0 to |composeEnv|
      invariant out == Override(composeEnv[..i], bySecretName)
      invariant forall k :: k in overridden <==> k in Keys(composeEnv[..i]) && k in bySecretName
    {
      var entry := composeEnv[i];
      var key := KeyOf(entry);
      assert composeEnv[..i + 1] == composeEnv[..i] + [entry];
      KeysAppend(composeEnv[..i], entry);
      if key in bySecretName {
        out := out + [Assignment(key, bySecretName[key])];
        overridden := overridden + {key};
      } else {
        out := out + [entry];
      }
    }
    assert composeEnv[..|composeEnv|] == composeEnv;
  }

  lemma KeysAppend(env: seq<string>, entry: string)
    ensures Keys(env + [entry]) == Keys(env) + {KeyOf(entry)}
  {
  }

  method MergeSecretsIntoEnv(composeEnv: seq<string>, secrets: seq<Secret>) returns (out: seq<string>)
    ensures out == Merge(composeEnv, secrets)
  {
    if |secrets| == 0 {
      assert Override(composeEnv, map[]) == composeEnv;
      return composeEnv;
    }
    var bySecretName := IndexByName(secrets);
    var overridden;
    out, overridden := ReplaceInPlace(composeEnv, bySecretName);
    ghost var replaced := out;
    for i := 0 to |secrets|
      invariant out == replaced + Appended(secrets[..i], Keys(composeEnv))
    {
      assert secrets[..i + 1][..i] == secrets[..i];
      NamesOf(secrets, i);
      if secrets[i].name !in overridden {
        out := out + [Assignment(secrets[i].name, secrets[i].value)];
      }
    }
    assert secrets[..|secrets|] == secrets;
  }

  lemma {:induction false} NamesOf(secrets: seq<Secret>, i: nat)
    requires i < |secrets|
    ensures secrets[i].name in ByName(secrets)
  {
    if i < |secrets| - 1 {
      NamesOf(secrets[..|secrets| - 1], i);
    }
  }

  // ---------------------------------------------------------------------------------------------
  // What the merged environment means
  // ---------------------------------------------------------------------------------------------

  /** The entry that decides a key: the last one. */
  function LastEntry(env: seq<string>, key: string): Option<string> {
    if env == [] then None
    else if KeyOf(env[|env| - 1]) == key then Some(env[|env| - 1])
    else LastEntry(env[..|env| - 1], key)
  }

  predicate PlainNames(secrets: seq<Secret>) {
    forall s :: s in secrets ==> '=' !in s.name
  }

  ghost predicate DistinctNames(secrets: seq<Secret>) {
    forall i, j :: 0 <= i < j < |secrets| ==> secrets[i].name != secrets[j].name
  }

  /** Looking a key up in the result: secrets win, everything else keeps its compose entry. */
  lemma {:induction false} SecretsWin(env: seq<string>, secrets: seq<Secret>, key: string)
    requires PlainNames(secrets)
    ensures LastEntry(Merge(env, secrets), key)
            == if key in ByName(secrets) then Some(Assignment(key, ByName(secrets)[key])) else LastEntry(env, key)
  {
    LookupAppended(secrets, Keys(env), key);
    LookupOverride(env, ByName(secrets), key);
    LookupConcat(Override(env, ByName(secrets)), Appended(secrets, Keys(env)), key);
    LookupAbsent(env, key);
  }

  lemma {:induction false} LookupConcat(a: seq<string>, b: seq<string>, key: string)
    ensures LastEntry(a + b, key) == if LastEntry(b, key).Some? then LastEntry(b, key) else LastEntry(a, key)
  {
    if b == [] {
      assert a + b == a;
    } else {
      assert (a + b)[..|a + b| - 1] == a + b[..|b| - 1];
      LookupConcat(a, b[..|b| - 1], key);
    }
  }

  lemma {:induction false} LookupAppended(secrets: seq<Secret>, taken: set<string>, key: string)
    requires PlainNames(secrets)
    ensures LastEntry(Appended(secrets, taken), key)
            == if key in ByName(secrets) && key !in taken then Some(Assignment(key, ByName(secrets)[key])) else None
  {
    if secrets != [] {
      var last := secrets[|secrets| - 1];
      var rest := secrets[..|secrets| - 1];
      LookupAppended(rest, taken, key);
      KeyOfAssignment(last.name, last.value);
      var tail := if last.name in taken then [] else [Assignment(last.name, last.value)];
      LookupConcat(Appended(rest, taken), tail, key);
      assert tail != [] ==> tail[..|tail| - 1] == [];
    }
  }

  lemma {:induction false} LookupOverride(env: seq<string>, byName: map<string, string>, key: string)
    ensures LastEntry(Override(env, byName), key)
            == if key in byName && key in Keys(env) then Some(Assignment(key, byName[key])) else LastEntry(env, key)
  {
    if env != [] {
      var init := env[..|env| - 1];
      var entry := env[|env| - 1];
      LookupOverride(init, byName, key);
      assert Override(env, byName)[..|env| - 1] == Override(init, byName);
      assert env == init + [entry];
      assert Keys(env) == Keys(init) + {KeyOf(entry)};
      if KeyOf(entry) in byName {
        KeyOfAssignment(KeyOf(entry), byName[KeyOf(entry)]);
      }
    }
  }

  lemma {:induction false} LookupAbsent(env: seq<string>, key: string)
    ensures LastEntry(env, key).None? <==> key !in Keys(env)
  {
    if env != [] {
      var init := env[..|env| - 1];
      LookupAbsent(init, key);
      assert env == init + [env[|env| - 1]];
      assert Keys(env) == Keys(init) + {KeyOf(env[|env| - 1])};
    }
  }

  /** The compose part keeps its keys position by position, and entries no secret names are untouched. */
  lemma ComposePartStable(env: seq<string>, secrets: seq<Secret>, i: nat)
    requires i < |env|
    ensures i < |Merge(env, secrets)|
    ensures KeyOf(Merge(env, secrets)[i]) == KeyOf(env[i])
    ensures KeyOf(env[i]) !in ByName(secrets) ==> Merge(env, secrets)[i] == env[i]
  {
    if KeyOf(env[i]) in ByName(secrets) {
      KeyOfAssignment(KeyOf(env[i]), ByName(secrets)[KeyOf(env[i])]);
    }
  }

  /** The secret's own value is the one its name ends up with, or its name is taken by the compose part. */
  predicate Settles(s: Secret, env: seq<string>, secrets: seq<Secret>)
    requires s in secrets
  {
    ListedByName(secrets, s);
    s.name in Keys(env) || s.value == ByName(secrets)[s.name]
  }

  lemma ListedByName(secrets: seq<Secret>, s: Secret)
    requires s in secrets
    ensures s.name in ByName(secrets)
  {
    var i :| 0 <= i < |secrets| && secrets[i] == s;
    NamesOf(secrets, i);
  }

  /** A second merge leaves what the first appended for settled secrets. */
  lemma SettledStays(env: seq<string>, secrets: seq<Secret>)
    requires PlainNames(secrets) && forall s :: s in secrets ==> Settles(s, env, secrets)
    ensures Override(Merge(env, secrets), ByName(secrets)) == Merge(env, secrets)
  {
    var byName, out := ByName(secrets), Merge(env, secrets);
    forall i | 0 <= i < |out| ensures Overridden(out[i], byName) == out[i] {
      if i < |env| {
        ComposePartStable(env, secrets, i);
      } else {
        AppendedFrom(secrets, Keys(env), i - |env|);
        var s :| s in secrets && s.name !in Keys(env) && out[i] == Assignment(s.name, s.value);
        assert Settles(s, env, secrets);
        KeyOfAssignment(s.name, s.value);
      }
    }
  }

  /** And changes what it appended for any other. */
  lemma UnsettledChanges(env: seq<string>, secrets: seq<Secret>, s: Secret)
    requires PlainNames(secrets) && s in secrets && !Settles(s, env, secrets)
    ensures Override(Merge(env, secrets), ByName(secrets)) != Merge(env, secrets)
  {
    var byName, out := ByName(secrets), Merge(env, secrets);
    AppendedListed(secrets, Keys(env), s);
    var k :| 0 <= k < |Appended(secrets, Keys(env))| && Appended(secrets, Keys(env))[k] == Assignment(s.name, s.value);
    assert out[|env| + k] == Assignment(s.name, s.value);
    KeyOfAssignment(s.name, s.value);
    ListedByName(secrets, s);
    AssignmentInjective(s.name, s.value, byName[s.name]);
    assert Override(out, byName)[|env| + k] != out[|env| + k];
  }

  /**
   Merging the same secrets a second time changes nothing exactly when every secret that the compose part does not
   take already has the value its name ends up with. The store keeps one row a name, so there it always holds.
   */
  lemma MergeIdempotentExactly(env: seq<string>, secrets: seq<Secret>)
    requires PlainNames(secrets)
    ensures Merge(Merge(env, secrets), secrets) == Merge(env, secrets)
            <==> forall s :: s in secrets ==> Settles(s, env, secrets)
  {
    SecondMergeOverrides(env, secrets);
    if forall s :: s in secrets ==> Settles(s, env, secrets) {
      SettledStays(env, secrets);
    } else {
      var s :| s in secrets && !Settles(s, env, secrets);
      UnsettledChanges(env, secrets, s);
    }
  }

  lemma AssignmentInjective(key: string, a: string, b: string)
    requires a != b
    ensures Assignment(key, a) != Assignment(key, b)
  {
    assert Assignment(key, a)[|key| + 1..] == a && Assignment(key, b)[|key| + 1..] == b;
  }

  /** A second merge finds every name taken, so it only overrides. */
  lemma SecondMergeOverrides(env: seq<string>, secrets: seq<Secret>)
    requires PlainNames(secrets)
    ensures Merge(Merge(env, secrets), secrets) == Override(Merge(env, secrets), ByName(secrets))
  {
    var out := Merge(env, secrets);
    forall s | s in secrets ensures s.name in Keys(out) {
      ListedByName(secrets, s);
      SecretsWin(env, secrets, s.name);
      LookupAbsent(out, s.name);
    }
    AllTaken(secrets, Keys(out));
    assert Override(out, ByName(secrets)) + [] == Override(out, ByName(secrets));
  }

  /** With one secret a name, as the store keeps them, a second merge changes nothing. */
  lemma MergeIdempotent(env: seq<string>, secrets: seq<Secret>)
    requires PlainNames(secrets) && DistinctNames(secrets)
    ensures Merge(Merge(env, secrets), secrets) == Merge(env, secrets)
  {
    forall s | s in secrets ensures Settles(s, env, secrets) {
      var i :| 0 <= i < |secrets| && secrets[i] == s;
      OwnValue(secrets, i);
    }
    MergeIdempotentExactly(env, secrets);
  }

  lemma {:induction false} OwnValue(secrets: seq<Secret>, i: nat)
    requires DistinctNames(secrets) && i < |secrets|
    ensures secrets[i].name in ByName(secrets) && ByName(secrets)[secrets[i].name] == secrets[i].value
  {
    if i < |secrets| - 1 {
      OwnValue(secrets[..|secrets| - 1], i);
    }
  }

  /** What stands behind the compose part comes from a secret whose name that part does not take. */
  lemma {:induction false} AppendedFrom(secrets: seq<Secret>, taken: set<string>, k: nat)
    requires k < |Appended(secrets, taken)|
    ensures exists s :: s in secrets && s.name !in taken && Appended(secrets, taken)[k] == Assignment(s.name, s.value)
  {
    var last, rest := secrets[|secrets| - 1], secrets[..|secrets| - 1];
    assert last in secrets;
    if k < |Appended(rest, taken)| {
      AppendedFrom(rest, taken, k);
      var s :| s in rest && s.name !in taken && Appended(rest, taken)[k] == Assignment(s.name, s.value);
      assert s in secrets;
    }
  }

  lemma {:induction false} AppendedListed(secrets: seq<Secret>, taken: set<string>, s: Secret)
    requires s in secrets && s.name !in taken
    ensures Assignment(s.name, s.value) in Appended(secrets, taken)
  {
    var last, rest := secrets[|secrets| - 1], secrets[..|secrets| - 1];
    if s != last {
      AppendedListed(rest, taken, s);
    }
  }

  lemma {:induction false} AllTaken(secrets: seq<Secret>, taken: set<string>)
    requires forall s :: s in secrets ==> s.name in taken
    ensures Appended(secrets, taken) == []
  {
    if secrets != [] {
      AllTaken(secrets[..|secrets| - 1], taken);
    }
  }

  lemma {:induction false} ByNameListed(secrets: seq<Secret>, name: string) returns (i: nat)
    requires name in ByName(secrets)
    ensures i < |secrets| && secrets[i] == Secret(name, ByName(secrets)[name])
  {
    if secrets[|secrets| - 1].name == name {
      i := |secrets| - 1;
    } else {
      i := ByNameListed(secrets[..|secrets| - 1], name);
    }
  }
}
