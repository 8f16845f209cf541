/**
 The join as the stream processor runs it, one arrival at a time. Each side
 keeps a buffer of the records it has seen; an arriving record is joined with
 every buffered record of the other side that it matches and is then buffered
 itself. Nothing is removed from a buffer on a match, so one record can take
 part in several outputs. Either way round, the joiner is called with the
 request first.

 The main theorem says that, for any interleaving of the two streams, the
 outputs are those of the pair-wise join of everything that arrived, each
 qualifying pair once.
 */
module StreamJoin {
  import opened Events
  import opened RecordBuilder
  import opened OTPValidationService

  /** One record arriving on one of the two input streams. */
  datatype Arrival =
    | RequestArrived(request: Record<PaymentRequest>)
    | ConfirmationArrived(confirmation: Record<PaymentConfirmation>)

  /** The request buffer after the arrivals `a`: the requests, in arrival order. */
  function Requests(a: seq<Arrival>): seq<Record<PaymentRequest>>
  {
    if a == [] then []
    else Requests(a[..|a| - 1]) + (if a[|a| - 1].RequestArrived? then [a[|a| - 1].request] else [])
  }

  /** The confirmation buffer after the arrivals `a`: the confirmations, in arrival order. */
  function Confirmations(a: seq<Arrival>): seq<Record<PaymentConfirmation>>
  {
    if a == [] then []
    else Confirmations(a[..|a| - 1]) + (if a[|a| - 1].ConfirmationArrived? then [a[|a| - 1].confirmation] else [])
  }

  /** What one arrival emits, given the arrivals before it. */
  function Step(before: seq<Arrival>, e: Arrival): seq<Output>
  {
    match e
    case RequestArrived(r) => JoinRequest(r, Confirmations(before))
    case ConfirmationArrived(c) => JoinConfirmation(Requests(before), c)
  }

  /** Everything emitted while the arrivals `a` are processed, in emission order. */
  function Process(a: seq<Arrival>): seq<Output>
  {
    if a == [] then []
    else Process(a[..|a| - 1]) + Step(a[..|a| - 1], a[|a| - 1])
  }

  /** One more arrival: the buffers grow by it and the emitted outputs by its step. */
  lemma ArrivalAppended(a: seq<Arrival>, e: Arrival)
    ensures Requests(a + [e]) == Requests(a) + (if e.RequestArrived? then [e.request] else [])
    ensures Confirmations(a + [e]) == Confirmations(a) + (if e.ConfirmationArrived? then [e.confirmation] else [])
    ensures Process(a + [e]) == Process(a) + Step(a, e)
  {
  }

  lemma {:induction false} JoinAppendRequest(rs: seq<Record<PaymentRequest>>, r: Record<PaymentRequest>,
                                             cs: seq<Record<PaymentConfirmation>>)
    ensures Join(rs + [r], cs) == Join(rs, cs) + JoinRequest(r, cs)
  {
    if rs == [] {
      assert [r][1..] == [];
      assert Join([r], cs) == JoinRequest(r, cs) + Join([], cs);
    } else {
      assert (rs + [r])[0] == rs[0];
      assert (rs + [r])[1..] == rs[1..] + [r];
      JoinAppendRequest(rs[1..], r, cs);
    }
  }

  lemma {:induction false} JoinRequestAppend(r: Record<PaymentRequest>, cs: seq<Record<PaymentConfirmation>>,
                                             c: Record<PaymentConfirmation>)
    ensures JoinRequest(r, cs + [c]) == JoinRequest(r, cs) + (if Matches(r, c) then [Emit(r, c)] else [])
  {
    if cs == [] {
      assert [c][1..] == [];
      assert JoinRequest(r, [c]) == (if Matches(r, c) then [Emit(r, c)] else []) + JoinRequest(r, []);
    } else {
      assert (cs + [c])[0] == cs[0];
      assert (cs + [c])[1..] == cs[1..] + [c];
      JoinRequestAppend(r, cs[1..], c);
    }
  }

  lemma {:induction false} JoinAppendConfirmation(rs: seq<Record<PaymentRequest>>, cs: seq<Record<PaymentConfirmation>>,
                                                  c: Record<PaymentConfirmation>)
    ensures multiset(Join(rs, cs + [c])) == multiset(Join(rs, cs)) + multiset(JoinConfirmation(rs, c))
  {
    if rs != [] {
      JoinRequestAppend(rs[0], cs, c);
      JoinAppendConfirmation(rs[1..], cs, c);
      var head := if Matches(rs[0], c) then [Emit(rs[0], c)] else [];
      calc {
        multiset(Join(rs, cs + [c]));
        multiset(JoinRequest(rs[0], cs) + head) + multiset(Join(rs[1..], cs + [c]));
        multiset(JoinRequest(rs[0], cs)) + multiset(head)
          + multiset(Join(rs[1..], cs)) + multiset(JoinConfirmation(rs[1..], c));
        multiset(JoinRequest(rs[0], cs) + Join(rs[1..], cs)) + multiset(head + JoinConfirmation(rs[1..], c));
      }
    }
  }

  /**
   Processing the arrivals one at a time emits, up to order, exactly the join
   of all requests with all confirmations that arrived.
   */
  lemma {:induction false} ProcessIsJoin(a: seq<Arrival>)
    ensures multiset(Process(a)) == multiset(Join(Requests(a), Confirmations(a)))
  {
    if a != [] {
      var before, e := a[..|a| - 1], a[|a| - 1];
      ProcessIsJoin(before);
      match e
      case RequestArrived(r) =>
        assert Requests(a) == Requests(before) + [r];
        assert Confirmations(a) == Confirmations(before);
        JoinAppendRequest(Requests(before), r, Confirmations(before));
      case ConfirmationArrived(c) =>
        assert Requests(a) == Requests(before);
        assert Confirmations(a) == Confirmations(before) + [c];
        JoinAppendConfirmation(Requests(before), Confirmations(before), c);
    }
  }

  /**
   The outputs do not depend on how the two streams interleave: two arrival
   orders that deliver the same requests and the same confirmations emit the
   same outputs, up to order.
   */
  lemma InterleavingIrrelevant(a: seq<Arrival>, b: seq<Arrival>)
    requires Requests(a) == Requests(b) && Confirmations(a) == Confirmations(b)
    ensures multiset(Process(a)) == multiset(Process(b))
  {
    ProcessIsJoin(a);
    ProcessIsJoin(b);
  }

  /** An output of the running join is an output of the pair-wise join, and conversely. */
  lemma ProcessMembership(a: seq<Arrival>, o: Output)
    ensures o in Process(a) <==>
            exists i, j :: 0 <= i < |Requests(a)| && 0 <= j < |Confirmations(a)|
              && Matches(Requests(a)[i], Confirmations(a)[j]) && o == Emit(Requests(a)[i], Confirmations(a)[j])
  {
    ProcessIsJoin(a);
    assert o in Process(a) <==> o in multiset(Process(a));
    assert o in Join(Requests(a), Confirmations(a)) <==> o in multiset(Join(Requests(a), Confirmations(a)));
    JoinMembership(Requests(a), Confirmations(a), o);
  }
}
