/** Small definitions shared by every module. */
module Common {

  datatype Option<+T> = None | Some(value: T)

  datatype Result<+T, +E> = Ok(value: T) | Err(error: E)

  predicate EndsWith(s: string, ending: string) {
    |ending| <= |s| && s[|s| - |ending|..] == ending
  }

  /** Putting a key in and taking it out again. */
  lemma PutAndDrop<K, V>(m: map<K, V>, k: K, v: V)
    ensures m[k := v] - {k} == m - {k}
    ensures (m - {k})[k := v] == m[k := v]
    ensures k !in m ==> m - {k} == m
  {
    assert (m[k := v] - {k}).Keys == (m - {k}).Keys;
    assert ((m - {k})[k := v]).Keys == m[k := v].Keys;
  }
}
