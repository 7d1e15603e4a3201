/** The growable integer queue and the bit map every algorithm here works on. */
module Containers {

  class Queue {
    var elements: seq<int>

    constructor ()
      ensures elements == []
    {
      elements := [];
    }

    method Push(id: int)
      modifies this
      ensures elements == old(elements) + [id]
    {
      elements := elements + [id];
    }

    /** `queue_insert` */
    method Insert(pos: nat, id: int)
      requires pos <= |elements|
      modifies this
      ensures elements == old(elements)[..pos] + [id] + old(elements)[pos..]
    {
      elements := elements[..pos] + [id] + elements[pos..];
    }

    method Truncate(n: nat)
      modifies this
      ensures elements == if n < |old(elements)| then old(elements)[..n] else old(elements)
    {
      if |elements| > n {
        elements := elements[..n];
      }
    }

    /** `queue_deleten`: drop up to n elements from position pos. */
    method DeleteN(pos: nat, n: nat)
      modifies this
      ensures elements == if pos >= |old(elements)| then old(elements)
                          else if pos + n >= |old(elements)| then old(elements)[..pos]
                          else old(elements)[..pos] + old(elements)[pos + n..]
    {
      if pos < |elements| {
        elements := elements[..pos] + (if pos + n >= |elements| then [] else elements[pos + n..]);
      }
    }

    method Shift() returns (id: int)
      modifies this
      ensures elements == if old(elements) == [] then [] else old(elements)[1..]
      ensures id == if old(elements) == [] then 0 else old(elements)[0]
    {
      id := 0;
      if elements != [] {
        id, elements := elements[0], elements[1..];
      }
    }
  }
}
