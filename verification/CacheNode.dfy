/** The MAC side of a node: its cached items and the complement it still misses. */
module CacheNode {
  import opened IndexSums
  import opened Rounds

  class CacheNode {
    const numDataItems: nat
    var alpha: set<nat>
    var beta: set<nat>

    /** Cached and missing items partition the item numbers; a uint8_t loop variable must reach the end. */
    ghost predicate Valid()
      reads this
    {
      numDataItems < 256 && Below(alpha, numDataItems) && beta == All(numDataItems) - alpha
    }

    /** The initial caches: an RSU holds every item; any other node starts from the items drawn for it. */
    constructor (numDataItems: nat, isRsu: bool, drawn: set<nat>)
      requires numDataItems < 256 && Below(drawn, numDataItems)
      ensures Valid() && this.numDataItems == numDataItems
      ensures alpha == if isRsu then All(numDataItems) else drawn
    {
      this.numDataItems := numDataItems;
      alpha := if isRsu then {} else drawn;
      beta := {};
      new;
      if isRsu {
        for i := 0 to numDataItems
          invariant alpha == All(i)
        {
          alpha := alpha + {i};
        }
      }
      Complement();
    }

    /** Recomputes the missing items. */
    method Complement()
      requires numDataItems < 256 && Below(alpha, numDataItems)
      modifies this`beta
      ensures Valid() && |beta| + |alpha| == numDataItems
    {
      beta := {};
      for i := 0 to numDataItems
        invariant beta == All(i) - alpha
      {
        if i !in alpha {
          beta := beta + {i};
        }
      }
      CacheComplement(alpha, numDataItems);
    }

    /** Receive: a packet heard over a link of this capacity. */
    method Receive(imti: set<nat>, capacity: nat)
      requires Valid() && Below(imti, numDataItems)
      modifies this
      ensures Valid() && alpha == Received(old(alpha), imti, capacity)
      ensures |beta| + |alpha| == numDataItems
    {
      alpha := Received(alpha, imti, capacity);
      Complement();
    }
  }
}
