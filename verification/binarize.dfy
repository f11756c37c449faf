/** Per-pixel class decisions: the channel argmax (ties go to the lowest
    channel, as numpy's does) and the binarization of network output and
    truth used by the metrics, which for three classes folds class 2 back
    into the background. */
module Binarize {
  import opened Wrappers

  /** Index of the largest channel, the first one on ties. */
  function ArgMax(v: seq<real>): (r: nat)
    requires |v| > 0
    ensures r < |v|
    ensures forall i :: 0 <= i < |v| ==> v[i] <= v[r]
    ensures forall i :: 0 <= i < r ==> v[i] < v[r]
  {
    if |v| == 1 then 0
    else
      var k := ArgMax(v[..|v| - 1]);
      if v[|v| - 1] > v[k] then |v| - 1 else k
  }

  /** The binarized network label of one pixel's channel vector: the argmax
      for two classes; for three, the argmax overridden to 0 wherever
      channel 2 beats channel 1. Other class counts leave it unbound. */
  function NetworkLabel(v: seq<real>, classes: nat): Option<nat>
    requires |v| == classes
  {
    if classes == 2 then Some(ArgMax(v))
    else if classes == 3 then Some(if v[2] > v[1] then 0 else ArgMax(v))
    else None
  }

  /** The binarized truth label of one pixel: the argmax for two classes;
      for three, overridden to 0 wherever channel 2 equals 1. */
  function TruthLabel(t: seq<real>, classes: nat): Option<nat>
    requires |t| == classes
  {
    if classes == 2 then Some(ArgMax(t))
    else if classes == 3 then Some(if t[2] == 1.0 then 0 else ArgMax(t))
    else None
  }

  /** One channel is 1 and every other is 0. */
  predicate OneHot(t: seq<real>) {
    exists k :: 0 <= k < |t| && t[k] == 1.0 && forall i :: 0 <= i < |t| && i != k ==> t[i] == 0.0
  }

  /** The argmax can be 2 only when channel 2 strictly beats channel 1, so
      the override leaves only labels 0 and 1; label 1 is given exactly
      where channel 1 strictly beats channel 0 and is not beaten by
      channel 2. */
  lemma NetworkLabelIsBinary(v: seq<real>, classes: nat)
    requires |v| == classes && (classes == 2 || classes == 3)
    ensures NetworkLabel(v, classes).Some?
    ensures NetworkLabel(v, classes).value == 0 || NetworkLabel(v, classes).value == 1
    ensures NetworkLabel(v, classes).value == 1 <==>
      v[1] > v[0] && (classes == 3 ==> v[1] >= v[2])
  {
    var k := ArgMax(v);
    if classes == 3 && !(v[2] > v[1]) {
      assert k != 2;
    }
  }

  /** On one-hot truth the three-class override removes exactly the pixels
      of class 2, so the truth label is 1 exactly on class-1 pixels. */
  lemma TruthLabelIsBinary(t: seq<real>, classes: nat)
    requires |t| == classes && (classes == 2 || classes == 3) && OneHot(t)
    ensures TruthLabel(t, classes).Some?
    ensures TruthLabel(t, classes).value == 0 || TruthLabel(t, classes).value == 1
    ensures TruthLabel(t, classes).value == 1 <==> t[1] == 1.0
  {
    var k :| 0 <= k < |t| && t[k] == 1.0 && forall i :: 0 <= i < |t| && i != k ==> t[i] == 0.0;
    var a := ArgMax(t);
    assert a == k;
  }

  /** Without one-hot truth the override does not keep labels binary: a
      soft truth vector whose largest channel is 2 but not 1 keeps label 2. */
  lemma SoftTruthKeepsClassTwo()
    ensures TruthLabel([0.0, 0.0, 0.5], 3) == Some(2)
  {
    var t := [0.0, 0.0, 0.5];
    assert ArgMax(t[..2]) == 0;
  }
}
