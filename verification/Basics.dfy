// Small pieces shared by several modules.

module Basics {
  datatype Option<T> = None | Some(value: T)

  lemma OneMoreKey<V>(m: map<nat, V>, k: nat, v: V)
    requires k !in m
    ensures |m[k := v]| == |m| + 1
  {
    assert m[k := v].Keys == m.Keys + {k};
    assert |m[k := v]| == |m[k := v].Keys|;
  }
}
