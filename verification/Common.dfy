/** Small shared vocabulary: optional values and facts about finite sets. */
module Common {

  datatype Option<+T> = None | Some(value: T)

  /** Alert severities, in the order of hermian-core/src/events.rs. */
  datatype Severity = Info | Low | High | Critical
  {
    function Rank(): (r: nat)
      ensures r <= 3
    {
      match this
      case Info => 0
      case Low => 1
      case High => 2
      case Critical => 3
    }

    predicate Actionable() {
      Rank() >= High.Rank()
    }
  }

  lemma SubsetCardinality<T>(a: set<T>, b: set<T>)
    requires a <= b
    ensures |a| <= |b|
    ensures |a| == |b| ==> a == b
  {
    assert b == a + (b - a);
    assert |b| == |a| + |b - a|;
    if |a| == |b| {
      assert b - a == {};
    }
  }
}
