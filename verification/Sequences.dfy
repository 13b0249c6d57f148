/** Sequences, whatever they hold. */
module Sequences {

  lemma {:induction false} Reassociate<T>(a: seq<T>, b: seq<T>, c: seq<T>)
    ensures a + b + c == a + (b + c)
  {
  }

  /** What is left of a sequence, its next part taken off. */
  lemma {:induction false} NextPart<T>(s: seq<T>, at: nat, n: nat)
    requires at + n <= |s|
    ensures s[at..] == s[at..at + n] + s[at + n..]
  {
  }

  /** What holds of nothing and is kept by one more element holds of every sequence. */
  lemma {:induction false} OneByOne<T>(p: seq<T> -> bool, s: seq<T>)
    requires p([]) && forall earlier, x | p(earlier) :: p(earlier + [x])
    ensures p(s)
  {
    if s != [] {
      OneByOne(p, s[..|s| - 1]);
      assert s[..|s| - 1] + [s[|s| - 1]] == s;
    }
  }
}
