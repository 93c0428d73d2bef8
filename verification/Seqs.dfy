/** Small facts about sequences that several modules lean on. */
module Seqs {

  lemma TakeDropConcat<T>(d: seq<T>, f: seq<T>, n: nat)
    requires n <= |d|
    ensures (d + f)[n..] == d[n..] + f
    ensures (d + f)[..n] == d[..n]
  {
  }

  lemma Associative<T>(x: seq<T>, y: seq<T>, z: seq<T>)
    ensures x + (y + z) == (x + y) + z
  {
  }

  lemma SplitAt<T>(s: seq<T>, n: nat)
    requires n <= |s|
    ensures s == s[..n] + s[n..]
  {
  }
}
