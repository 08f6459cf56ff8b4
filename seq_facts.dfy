/**
 * Re-bracketing facts about sequence concatenation, stated once for
 * arbitrary sequences so that the proofs using them do not have to rediscover
 * them element by element.
 */
module SeqFacts {

  /** `+` on sequences is associative. */
  lemma AppendAssoc<T>(x: seq<T>, y: seq<T>, z: seq<T>)
    ensures x + (y + z) == (x + y) + z
  {
  }

  /** A text read in parts: what was taken before, then the next part, then the rest, is all of it. */
  lemma Regroup<T>(all: seq<T>, before: seq<T>, head: seq<T>, rest: seq<T>, unread: seq<T>)
    requires before + unread == all && unread == head + rest
    ensures (before + head) + rest == all
  {
  }

  /** Dropping `i` elements and then `j` more drops `i + j`. */
  lemma DropDrop<T>(s: seq<T>, i: nat, j: nat)
    requires i + j <= |s|
    ensures s[i..][j..] == s[i + j..]
  {
  }
}
