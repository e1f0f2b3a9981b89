/**
 * A Python dictionary filled by a loop of plain assignments `d[k] = v`: every
 * later assignment to a key overwrites the earlier one.
 */
module LastWrite {
  import opened Optional

  /** Step `i` assigns `k` (whatever the value). */
  predicate WritesKey<K(==), V>(writes: seq<Option<(K, V)>>, i: int, k: K)
  {
    0 <= i < |writes| && writes[i].Some? && writes[i].value.0 == k
  }

  /**
   * The dictionary left after running `writes` in order on an empty one;
   * step `i` is `None` when that iteration of the loop assigns nothing.
   */
  function Assigned<K(==), V>(writes: seq<Option<(K, V)>>): map<K, V>
    decreases |writes|
  {
    if writes == [] then map[]
    else
      var n := |writes| - 1;
      match writes[n]
      case None => Assigned(writes[..n])
      case Some(kv) => Assigned(writes[..n])[kv.0 := kv.1]
  }

  /** One more iteration of the loop: the dictionary after `i + 1` steps. */
  lemma AssignedStep<K, V>(writes: seq<Option<(K, V)>>, i: int)
    requires 0 <= i < |writes|
    ensures Assigned(writes[..i + 1]) ==
            if writes[i].None? then Assigned(writes[..i])
            else Assigned(writes[..i])[writes[i].value.0 := writes[i].value.1]
  {
    assert writes[..i + 1][..i] == writes[..i];
  }

  /** A key is in the dictionary exactly when some step assigns it. */
  lemma {:induction false} AssignedKeys<K(!new), V>(writes: seq<Option<(K, V)>>, k: K)
    ensures k in Assigned(writes) <==> exists i :: WritesKey(writes, i, k)
    decreases |writes|
  {
    if writes != [] {
      var n := |writes| - 1;
      AssignedKeys(writes[..n], k);
      assert forall i :: WritesKey(writes[..n], i, k) <==> WritesKey(writes, i, k) && i < n;
      if WritesKey(writes, n, k) {
      }
    }
  }

  /** Last write wins: the value of `k` is the one of the last step that assigns `k`. */
  lemma {:induction false} AssignedIsLastWrite<K(!new), V>(writes: seq<Option<(K, V)>>, k: K)
    requires k in Assigned(writes)
    ensures exists i :: WritesKey(writes, i, k) && writes[i].value.1 == Assigned(writes)[k] &&
                        forall j :: i < j < |writes| ==> !WritesKey(writes, j, k)
    decreases |writes|
  {
    AssignedKeys(writes, k);
    var n := |writes| - 1;
    var prefix := writes[..n];
    if writes[n].Some? && writes[n].value.0 == k {
      assert WritesKey(writes, n, k);
    } else {
      AssignedIsLastWrite(prefix, k);
      var i :| WritesKey(prefix, i, k) && prefix[i].value.1 == Assigned(prefix)[k] &&
               forall j :: i < j < |prefix| ==> !WritesKey(prefix, j, k);
      assert WritesKey(writes, i, k);
      assert forall j :: i < j < |writes| ==> !WritesKey(writes, j, k) by {
        forall j | i < j < |writes| ensures !WritesKey(writes, j, k) {
          if j < n { assert !WritesKey(prefix, j, k); }
        }
      }
    }
  }

  /**
   * Two loops that assign key `k` at the same steps and with the same values
   * leave the same value at `k`, whatever else they assign.
   */
  lemma {:induction false} AssignedAgreeAt<K(!new), V>(w1: seq<Option<(K, V)>>, w2: seq<Option<(K, V)>>, k: K)
    requires |w1| == |w2|
    requires forall i :: 0 <= i < |w1| && WritesKey(w1, i, k) ==> w2[i] == w1[i]
    requires forall i :: 0 <= i < |w2| && WritesKey(w2, i, k) ==> w1[i] == w2[i]
    requires k in Assigned(w1)
    ensures k in Assigned(w2) && Assigned(w2)[k] == Assigned(w1)[k]
    decreases |w1|
  {
    AssignedKeys(w1, k);
    AssignedKeys(w2, k);
    var n := |w1| - 1;
    if WritesKey(w1, n, k) {
      assert w2[n] == w1[n];
    } else {
      assert !WritesKey(w2, n, k);
      AssignedAgreeAt(w1[..n], w2[..n], k);
    }
  }
}
