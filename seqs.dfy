/** Sequence helpers shared by the report and the CSV export. */
module Seqs {

  /** `xs.map(f)`: `f` applied to each element, in order. */
  function Each<A, B>(xs: seq<A>, f: A -> B): (ys: seq<B>)
    ensures |ys| == |xs|
    ensures forall i :: 0 <= i < |xs| ==> ys[i] == f(xs[i])
  {
    if xs == [] then [] else Each(xs[..|xs| - 1], f) + [f(xs[|xs| - 1])]
  }

  /** `data.forEach(x => out.push(f(x)))`: `f` of each element appended to `out`, in order. */
  method PushEach<A, B>(out: seq<B>, data: seq<A>, f: A -> B) returns (res: seq<B>)
    ensures res == out + Each(data, f)
  {
    res := out;
    var i := 0;
    while i < |data|
      invariant 0 <= i <= |data|
      invariant res == out + Each(data[..i], f)
    {
      assert data[..i + 1][..i] == data[..i];
      res := res + [f(data[i])];
      i := i + 1;
    }
    assert data[..i] == data;
  }
}
