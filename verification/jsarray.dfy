/** The JavaScript array built-in `flat` over Dafny sequences. */
module JsArray {

  /** `xss.flat()`: the lists one after the other. */
  function Flat<T>(xss: seq<seq<T>>): (r: seq<T>)
    ensures xss == [] ==> r == []
    decreases |xss|
  {
    if xss == [] then [] else xss[0] + Flat(xss[1..])
  }

  /** Flattening distributes over concatenation of the outer list. */
  lemma {:induction false} FlatAppend<T>(a: seq<seq<T>>, b: seq<seq<T>>)
    ensures Flat(a + b) == Flat(a) + Flat(b)
    decreases |a|
  {
    if a == [] {
      assert a + b == b;
    } else {
      assert (a + b)[1..] == a[1..] + b;
      FlatAppend(a[1..], b);
    }
  }

  /** The flattened list is as long as all the inner lists together. */
  lemma {:induction false} FlatLength<T>(xss: seq<seq<T>>)
    ensures |Flat(xss)| == TotalLength(xss)
    decreases |xss|
  {
    if xss != [] {
      FlatLength(xss[1..]);
    }
  }

  function TotalLength<T>(xss: seq<seq<T>>): nat
    decreases |xss|
  {
    if xss == [] then 0 else |xss[0]| + TotalLength(xss[1..])
  }
}
