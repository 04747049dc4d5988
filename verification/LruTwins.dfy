/** The inclusion property of the linked-list store itself. */
module LruTwins {
  import opened Wrappers
  import opened LruModel
  import opened LruInclusion
  import opened LruStore

  /** Two stores on the same calls and the same clock: a Get that the smaller one
      answers, the larger one answers alike. */
  method RunBoth<V(==)>(small: int, large: int, ops: seq<Op<V>>, clock: seq<int>)
      returns (smallAnswers: seq<Option<V>>, largeAnswers: seq<Option<V>>)
    requires Capacity(small) <= Capacity(large) && |clock| == |ops|
    ensures |smallAnswers| == |largeAnswers| == |ops|
    ensures forall i :: 0 <= i < |ops| && smallAnswers[i].Some? ==> largeAnswers[i] == smallAnswers[i]
  {
    var smaller := new Store<V>(small);
    smallAnswers := smaller.Run(ops, clock);
    var larger := new Store<V>(large);
    largeAnswers := larger.Run(ops, clock);
    Inclusion<V>(Capacity(small), Capacity(large), ops, clock);
  }
}
