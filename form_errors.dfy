/** The `newErrors` dictionary the form validators fill in, one message per key. */
module FormErrors {

  /** `Object.keys(newErrors).length === 0` holds exactly of the empty dictionary. */
  lemma NoKeysIffEmpty<K, V>(m: map<K, V>)
    ensures |m| == 0 <==> m == map[]
  {
    if m != map[] {
      var k :| k in m;
      assert k in m.Keys;
    }
  }
}
