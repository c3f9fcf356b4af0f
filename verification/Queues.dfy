/** The queue of the forward chaining (build_model.py:280-301): a list of atoms with a
    read position, and the set of everything ever enqueued. */
module Queues {
  import opened Strips

  function Elements(q: seq<Atom>): set<Atom> {
    set a | a in q
  }

  /** The list grew by new atoms. */
  ghost predicate Grown(before: seq<Atom>, after: seq<Atom>) {
    before <= after && forall k :: |before| <= k < |after| ==> after[k] !in before
  }

  lemma GrownSame(a: seq<Atom>)
    ensures Grown(a, a)
  {
  }

  lemma GrownTwice(a: seq<Atom>, b: seq<Atom>, c: seq<Atom>)
    requires Grown(a, b) && Grown(b, c)
    ensures Grown(a, c)
  {
    forall k | |a| <= k < |c| ensures c[k] !in a {
      if k < |b| { assert c[k] == b[k]; } else { assert forall x :: x in a ==> x in b; }
    }
  }

  /** If no atom is new, the list did not grow. */
  lemma NothingGrown(a: seq<Atom>, b: seq<Atom>)
    requires Grown(a, b) && Elements(a) == Elements(b)
    ensures a == b
  {
    if |a| < |b| { NewElement(a, b); }
  }

  lemma NewElement(a: seq<Atom>, b: seq<Atom>)
    requires Grown(a, b) && |a| < |b|
    ensures Elements(a) != Elements(b)
  {
    assert b[|a|] in Elements(b) && b[|a|] !in Elements(a);
  }

  class Queue {
    var queue: seq<Atom>
    var queuePos: nat
    var enqueued: set<Atom>
    var numPushes: nat

    ghost predicate Valid()
      reads this
    {
      queuePos <= |queue| && enqueued == Elements(queue)
    }

    constructor (atoms: seq<Atom>)
      ensures Valid() && queue == atoms && queuePos == 0
    {
      queue, queuePos, enqueued, numPushes := atoms, 0, set a | a in atoms, |atoms|;
    }

    /** Append the atom unless it was enqueued before. */
    method Push(a: Atom)
      requires Valid()
      modifies this
      ensures Valid() && enqueued == old(enqueued) + {a} && queuePos == old(queuePos)
      ensures queue == old(queue) + if a in old(enqueued) then [] else [a]
      ensures Grown(old(queue), queue)
      ensures numPushes == old(numPushes) + 1
    {
      numPushes := numPushes + 1;
      if a !in enqueued {
        enqueued := enqueued + {a};
        queue := queue + [a];
      }
    }

    method Pop() returns (a: Atom)
      requires Valid() && queuePos < |queue|
      modifies this`queuePos
      ensures Valid() && a == queue[old(queuePos)] && queuePos == old(queuePos) + 1
    {
      a := queue[queuePos];
      queuePos := queuePos + 1;
    }
  }
}
