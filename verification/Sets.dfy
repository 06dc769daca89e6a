/** The sizes of finite sets. */
module Sets {

  lemma SubsetSize<T>(part: set<T>, whole: set<T>)
    requires part <= whole
    ensures |part| <= |whole| && (|part| == |whole| ==> part == whole)
  {
    assert whole == part + (whole - part);
    if |whole - part| == 0 { assert whole - part == {}; }
  }
}
