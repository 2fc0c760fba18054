/** What every part of the model uses. */
module Common {
  datatype Option<T> = None | Some(value: T)

  lemma SubsetIsSmaller<T>(s: set<T>, t: set<T>)
    requires s <= t
    ensures |s| <= |t|
  {
    assert t == s + (t - s);
  }
}
