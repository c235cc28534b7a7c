/** Append-only logs whose rows carry digest({"event": event, "previous_hash": previous}).
    A digest is the constructor DigestOf: equal digests have equal inputs, the usual reading of
    SHA-256 over canonical JSON. Column values that are no digest of this kind are Other. */
module HashChain {

  datatype Digest<+E> = NoHash | Other(text: string) | DigestOf(event: E, previous: Digest<E>)

  /** One row as verify reads it: the decoded event without its own hash, and the two hash columns. */
  datatype Link<+E> = Link(event: E, hash: Digest<E>, previous: Digest<E>)

  function Tail<E>(links: seq<Link<E>>): Digest<E> {
    if links == [] then NoHash else links[|links| - 1].hash
  }

  predicate Linked<E(==)>(link: Link<E>, previous: Digest<E>) {
    link.previous == previous && link.hash == DigestOf(link.event, previous)
  }

  predicate Chained<E(==)>(links: seq<Link<E>>) {
    forall k :: 0 <= k < |links| ==> Linked(links[k], Tail(links[..k]))
  }

  lemma ChainedPrefix<E>(links: seq<Link<E>>)
    requires links != []
    ensures Chained(links) <==> Chained(links[..|links| - 1]) && Linked(links[|links| - 1], Tail(links[..|links| - 1]))
  {
    var front := links[..|links| - 1];
    assert forall k :: 0 <= k < |front| ==> front[..k] == links[..k];
  }

  /** The last hash of a chain determines every row of it, and how many there are. */
  lemma {:induction false} SameTailSameChain<E>(a: seq<Link<E>>, b: seq<Link<E>>)
    requires Chained(a) && Chained(b) && Tail(a) == Tail(b)
    ensures a == b
    decreases |a|
  {
    if a != [] && b != [] {
      var m, n := |a| - 1, |b| - 1;
      ChainedPrefix(a);
      ChainedPrefix(b);
      SameTailSameChain(a[..m], b[..n]);
      assert a == a[..m] + [a[m]] && b == b[..n] + [b[n]];
    } else {
      ChainEnds(a);
      ChainEnds(b);
    }
  }

  lemma ChainEnds<E>(links: seq<Link<E>>)
    requires Chained(links)
    ensures links == [] <==> Tail(links) == NoHash
  {
    if links != [] { ChainedPrefix(links); }
  }
}
