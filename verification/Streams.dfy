/** Streams of messages that may lack some of what was published. */
module Streams {
  /** `part` is `whole` with some messages left out. */
  ghost predicate Subsequence<T>(part: seq<T>, whole: seq<T>) {
    if part == [] then true
    else if whole == [] then false
    else
      || (part[|part| - 1] == whole[|whole| - 1] && Subsequence(part[..|part| - 1], whole[..|whole| - 1]))
      || Subsequence(part, whole[..|whole| - 1])
  }

  lemma SubsequenceExtends<T>(part: seq<T>, whole: seq<T>, x: T)
    requires Subsequence(part, whole)
    ensures Subsequence(part + [x], whole + [x]) && Subsequence(part, whole + [x])
  {
    assert (part + [x])[..|part|] == part && (whole + [x])[..|whole|] == whole;
  }

  lemma {:induction false} SubsequenceNoLonger<T>(part: seq<T>, whole: seq<T>)
    requires Subsequence(part, whole)
    ensures |part| <= |whole|
    ensures |part| == |whole| ==> part == whole
  {
    if part != [] {
      var front, rest := part[..|part| - 1], whole[..|whole| - 1];
      if part[|part| - 1] == whole[|whole| - 1] && Subsequence(front, rest) {
        SubsequenceNoLonger(front, rest);
        if |part| == |whole| {
          assert part == front + [part[|part| - 1]] && whole == rest + [whole[|whole| - 1]];
        }
      } else {
        SubsequenceNoLonger(part, rest);
      }
    }
  }
}
