/** `buildConfig`: turns `{category -> {outputKind -> value}}` into
    `{outputKind -> {category -> value}}`. */
module Config {

  /** Every output kind some category has. */
  function OutputKinds<K, C, V>(m: map<K, map<C, V>>): set<C>
  {
    set t, k | t in m && k in m[t] :: k
  }

  /** The transposed map, defined at once. */
  function Transpose<K, C, V>(m: map<K, map<C, V>>): map<C, map<K, V>>
  {
    map k | k in OutputKinds(m) :: map t | t in m && k in m[t] :: m[t][k]
  }

  /** `r` holds every value of `m` under the swapped pair of keys, holds
      nothing else, and has no empty row. */
  ghost predicate IsTransposeOf<K, C, V>(r: map<C, map<K, V>>, m: map<K, map<C, V>>)
  {
    && (forall t, k :: t in m && k in m[t] ==> k in r && t in r[k] && r[k][t] == m[t][k])
    && (forall k, t :: k in r && t in r[k] ==> t in m && k in m[t])
    && (forall k :: k in r ==> r[k] != map[])
  }

  /** The transpose holds every value under the swapped pair of keys, holds
      nothing else, and has no empty row. */
  lemma TransposeSpec<K, C, V>(m: map<K, map<C, V>>)
    ensures var r := Transpose(m);
      && (forall t, k :: t in m && k in m[t] ==> k in r && t in r[k] && r[k][t] == m[t][k])
      && (forall k, t :: k in r && t in r[k] ==> t in m && k in m[t])
      && (forall k :: k in r ==> r[k] != map[])
  {
    var r := Transpose(m);
    forall k | k in r ensures r[k] != map[] {
      var t :| t in m && k in m[t];
      assert t in r[k];
    }
  }

  /** A map with the three properties of a transpose is the transpose. */
  lemma TransposeUnique<K, C, V>(m: map<K, map<C, V>>, r: map<C, map<K, V>>)
    requires forall t, k :: t in m && k in m[t] ==> k in r && t in r[k] && r[k][t] == m[t][k]
    requires forall k, t :: k in r && t in r[k] ==> t in m && k in m[t]
    requires forall k :: k in r ==> r[k] != map[]
    ensures r == Transpose(m)
  {
    var tr := Transpose(m);
    forall k | k in r ensures k in tr && r[k] == tr[k] {
      TransposeRow(m, r, k);
    }
    forall k | k in tr ensures k in r {
      assert k in OutputKinds(m);
      var t, k' :| t in m && k' in m[t] && k' == k;
    }
    assert r.Keys == tr.Keys;
  }

  lemma TransposeRow<K, C, V>(m: map<K, map<C, V>>, r: map<C, map<K, V>>, k: C)
    requires forall t :: t in m && k in m[t] ==> k in r && t in r[k] && r[k][t] == m[t][k]
    requires k in r && forall t :: t in r[k] ==> t in m && k in m[t]
    requires r[k] != map[]
    ensures k in Transpose(m) && r[k] == Transpose(m)[k]
  {
    TransposeSpec(m);
    var t :| t in r[k];
    assert k in Transpose(m);
    assert r[k].Keys == Transpose(m)[k].Keys;
  }

  /** Transposing twice gives back every category that has at least one output kind. */
  lemma TransposeTwice<K, C, V>(m: map<K, map<C, V>>)
    requires forall t :: t in m ==> m[t] != map[]
    ensures Transpose(Transpose(m)) == m
  {
    TransposeUnique(Transpose(m), m);
  }

  /** `m[a][b]` exists and is `v`. */
  predicate At<A, B, V(==)>(m: map<A, map<B, V>>, a: A, b: B, v: V) {
    a in m && b in m[a] && m[a][b] == v
  }

  /** Every value of `m` is found in its transpose under the swapped keys, and
      nothing else is. */
  lemma TransposeAt<K, C, V>(m: map<K, map<C, V>>, r: map<C, map<K, V>>)
    requires IsTransposeOf(r, m)
    ensures forall t, k, v :: At(m, t, k, v) <==> At(r, k, t, v)
  {
  }

  /** The nested loops of `buildConfig`: a category's entry is created the first
      time one of its output kinds is met, then the value is stored under it. */
  method BuildConfig<K, C, V>(input: map<K, map<C, V>>) returns (result: map<C, map<K, V>>)
    ensures forall t, k :: t in input && k in input[t] ==> k in result && t in result[k] && result[k][t] == input[t][k]
    ensures forall k, t :: k in result && t in result[k] ==> t in input && k in input[t]
    ensures forall k :: k in result ==> result[k] != map[]
    ensures result == Transpose(input)
  {
    result := map[];
    var themes := input.Keys;
    while themes != {}
      invariant themes <= input.Keys
      invariant forall t, k :: t in input && t !in themes && k in input[t] ==>
        k in result && t in result[k] && result[k][t] == input[t][k]
      invariant forall k, t :: k in result && t in result[k] ==> t in input && t !in themes && k in input[t]
      invariant forall k :: k in result ==> result[k] != map[]
      decreases themes
    {
      var themeKey :| themeKey in themes;
      var config := input[themeKey];
      var keys := config.Keys;
      while keys != {}
        invariant keys <= config.Keys
        invariant forall t, k :: t in input && (t !in themes || (t == themeKey && k !in keys)) && k in input[t] ==>
          k in result && t in result[k] && result[k][t] == input[t][k]
        invariant forall k, t :: k in result && t in result[k] ==>
          t in input && (t !in themes || (t == themeKey && k !in keys)) && k in input[t]
        invariant forall k :: k in result ==> result[k] != map[]
        decreases keys
      {
        var configKey :| configKey in keys;
        if configKey !in result {
          result := result[configKey := map[]];
        }
        result := result[configKey := result[configKey][themeKey := config[configKey]]];
        keys := keys - {configKey};
      }
      themes := themes - {themeKey};
    }
    TransposeUnique(input, result);
  }
}
