/** The dict filter of trickster/utils.py. A Python value that may be `None` is an `Option`. */
module Utils {
  import opened Wrappers

  /** `remove_none_values`: keep exactly the entries whose value is not `None`. */
  function RemoveNoneValues<K, V>(values: map<K, Option<V>>): (r: map<K, Option<V>>)
    ensures forall k :: k in r ==> r[k].Some?
    ensures forall k :: k in r ==> k in values && r[k] == values[k]
    ensures forall k :: k in values && values[k].Some? ==> k in r
  {
    map k | k in values && values[k].Some? :: values[k]
  }

  /** Filtering twice is filtering once. */
  lemma RemoveNoneValuesIdempotent<K, V>(values: map<K, Option<V>>)
    ensures RemoveNoneValues(RemoveNoneValues(values)) == RemoveNoneValues(values)
  {
    var once := RemoveNoneValues(values);
    var twice := RemoveNoneValues(once);
    assert forall k :: k in twice <==> k in once;
  }
}
