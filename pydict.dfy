/** Building a Python dictionary by assigning `d[key] = value` for a sequence
    of pairs, as the parsing loops do: a later assignment to a key replaces
    the earlier value. A `None` in the sequence stands for a line that
    assigns nothing. */
module PyDict {
  import opened PyStr

  /** The dictionary a sequence of pairs builds: each pair sets its key, so a
      later pair overwrites an earlier one. */
  function Assign(kvs: seq<Option<(string, string)>>): map<string, string> {
    if kvs == [] then map[]
    else
      var m := Assign(kvs[..|kvs| - 1]);
      var kv := kvs[|kvs| - 1];
      if kv.None? then m else m[kv.value.0 := kv.value.1]
  }

  /** Pair `kv` sets key `k`. */
  predicate SetsKey(kv: Option<(string, string)>, k: string) {
    kv.Some? && kv.value.0 == k
  }

  /** A key is in the dictionary exactly when some pair sets it. */
  lemma {:induction false} AssignKeys(kvs: seq<Option<(string, string)>>, k: string)
    ensures k in Assign(kvs) <==> exists i :: 0 <= i < |kvs| && SetsKey(kvs[i], k)
    decreases |kvs|
  {
    if kvs != [] {
      var p := kvs[..|kvs| - 1];
      AssignKeys(p, k);
      if !SetsKey(kvs[|kvs| - 1], k) {
        assert forall i :: 0 <= i < |p| ==> kvs[i] == p[i];
      }
    }
  }

  /** The value of a key is the one the last pair setting it gives. */
  lemma {:induction false} AssignLast(kvs: seq<Option<(string, string)>>, k: string)
    requires k in Assign(kvs)
    ensures exists i ::
      (0 <= i < |kvs| && kvs[i] == Some((k, Assign(kvs)[k]))
      && forall j :: i < j < |kvs| ==> !SetsKey(kvs[j], k))
    decreases |kvs|
  {
    var p := kvs[..|kvs| - 1];
    var n := |kvs| - 1;
    if SetsKey(kvs[n], k) {
      assert kvs[n] == Some((k, Assign(kvs)[k]));
    } else {
      AssignLast(p, k);
      var i :| 0 <= i < |p| && p[i] == Some((k, Assign(p)[k]))
        && forall j :: i < j < |p| ==> !SetsKey(p[j], k);
      assert forall j :: i <= j < n ==> kvs[j] == p[j];
    }
  }
}
