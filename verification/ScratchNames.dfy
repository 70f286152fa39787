/** Where scratch names come from: one sixteen-bit counter per process, advanced under a lock. */
module ScratchNames {
  import opened Publication
  import opened PublicationSafety

  class Counter {
    const token: nat
    var counter: nat        // what the process stores
    ghost var issued: nat   // how many names it has given out

    ghost predicate Valid()
      reads this
    {
      counter == issued % TICKETS
    }

    constructor (token: nat)
      ensures Valid() && issued == 0 && this.token == token
    {
      this.token, counter, issued := token, 0, 0;
    }

    /** `unique_temp_path`: the name of the next allocation. */
    method UniqueTempPath() returns (name: Name)
      requires Valid()
      modifies this
      ensures Valid() && issued == old(issued) + 1
      ensures name == NameOf(token, issued)
    {
      NextTicket(issued);
      counter := (counter + 1) % TICKETS;
      issued := issued + 1;
      name := Scratch(token, counter);
    }
  }

  lemma {:induction false} NextTicket(n: nat)
    ensures (n % TICKETS + 1) % TICKETS == (n + 1) % TICKETS
  {
    assert n == n / TICKETS * TICKETS + n % TICKETS;
  }

  function NameOf(token: nat, ticket: nat): Name {
    Scratch(token, ticket % TICKETS)
  }

  /**
   A name stays clear of those given out after it for exactly the next 65535 allocations: any 65536
   in a row are distinct, and the one after them repeats the first.
   */
  lemma {:induction false} FreshForHowLong(token: nat, ticket: nat, distance: nat)
    ensures (forall later: nat :: ticket < later < ticket + distance ==> NameOf(token, later) != NameOf(token, ticket))
      <==> distance <= 0x1_0000
  {
    if distance <= TICKETS {
      forall later: nat | ticket < later < ticket + distance ensures NameOf(token, later) != NameOf(token, ticket) {
        TicketsCollide(ticket, later);
      }
    } else {
      TicketsCollide(ticket, ticket + TICKETS);
      assert NameOf(token, ticket + TICKETS) == NameOf(token, ticket);
    }
  }
}
