/**
 The join the service configures: the request stream (left) is inner-joined
 with the confirmation stream (right) on the record key, within a symmetric
 window of five minutes, and each joined pair is turned into a status by the
 evaluator, with the request as the joiner's first argument.

 The join is stated as a pure function of the two streams' finite prefixes:
 every pair of a request and a confirmation that qualifies yields one output,
 in request-major order.
 */
module OTPValidationService {
  import opened Events
  import opened RecordBuilder

  /** The window is five minutes, in milliseconds. */
  const WindowMinutes: nat := 5
  const JoinWindowMs: nat := WindowMinutes * 60 * 1000

  /**
   The window is symmetric and inclusive: the confirmation may be up to the
   window before or after the request.
   */
  predicate InWindow(requestTime: nat, confirmationTime: nat) {
    requestTime - JoinWindowMs <= confirmationTime <= requestTime + JoinWindowMs
  }

  /** A request and a confirmation are joined when their keys are equal and their times are in the window. */
  predicate Matches(r: Record<PaymentRequest>, c: Record<PaymentConfirmation>) {
    r.key == c.key && InWindow(r.time, c.time)
  }

  /** What the join emits for one joined pair: the join key and the evaluator's result. */
  function Emit(r: Record<PaymentRequest>, c: Record<PaymentConfirmation>): Output
  {
    Output(r.key, GetTransactionStatus(r.value, c.value))
  }

  /** The outputs one request forms with the confirmations `cs`, in their order. */
  function JoinRequest(r: Record<PaymentRequest>, cs: seq<Record<PaymentConfirmation>>): seq<Output>
  {
    if cs == [] then []
    else (if Matches(r, cs[0]) then [Emit(r, cs[0])] else []) + JoinRequest(r, cs[1..])
  }

  /** The outputs one confirmation forms with the requests `rs`, in their order. */
  function JoinConfirmation(rs: seq<Record<PaymentRequest>>, c: Record<PaymentConfirmation>): seq<Output>
  {
    if rs == [] then []
    else (if Matches(rs[0], c) then [Emit(rs[0], c)] else []) + JoinConfirmation(rs[1..], c)
  }

  /** The inner join of the request stream with the confirmation stream. */
  function Join(rs: seq<Record<PaymentRequest>>, cs: seq<Record<PaymentConfirmation>>): seq<Output>
  {
    if rs == [] then []
    else JoinRequest(rs[0], cs) + Join(rs[1..], cs)
  }

  /** The five-minute window is 300000 ms, and its bounds are inclusive on both sides. */
  lemma WindowBoundary(t: nat)
    ensures JoinWindowMs == 300000
    ensures InWindow(t, t + 300000) && !InWindow(t, t + 300001)
    ensures t >= 300000 ==> InWindow(t, t - 300000)
    ensures t >= 300001 ==> !InWindow(t, t - 300001)
  {
  }

  /** The window relation does not depend on which side arrived first. */
  lemma WindowSymmetric(t: nat, u: nat)
    ensures InWindow(t, u) <==> InWindow(u, t)
  {
  }

  /** An output of one request comes from a confirmation it matches, and every match gives one. */
  lemma {:induction false} JoinRequestMembership(r: Record<PaymentRequest>, cs: seq<Record<PaymentConfirmation>>, o: Output)
    ensures o in JoinRequest(r, cs) <==> exists j :: 0 <= j < |cs| && Matches(r, cs[j]) && o == Emit(r, cs[j])
  {
    if cs != [] {
      JoinRequestMembership(r, cs[1..], o);
      if o in JoinRequest(r, cs[1..]) {
        var j :| 0 <= j < |cs[1..]| && Matches(r, cs[1..][j]) && o == Emit(r, cs[1..][j]);
        assert cs[1..][j] == cs[j + 1];
      }
      if exists j :: 0 <= j < |cs| && Matches(r, cs[j]) && o == Emit(r, cs[j]) {
        var j :| 0 <= j < |cs| && Matches(r, cs[j]) && o == Emit(r, cs[j]);
        if j > 0 {
          assert cs[1..][j - 1] == cs[j];
        }
      }
    }
  }

  /**
   The join emits exactly the values of the qualifying pairs: an output is in
   the join if and only if it is `Emit(r, c)` for a request `r` and a
   confirmation `c` with equal keys and times at most the window apart.
   */
  lemma {:induction false} JoinMembership(rs: seq<Record<PaymentRequest>>, cs: seq<Record<PaymentConfirmation>>, o: Output)
    ensures o in Join(rs, cs) <==>
            exists i, j :: 0 <= i < |rs| && 0 <= j < |cs| && Matches(rs[i], cs[j]) && o == Emit(rs[i], cs[j])
  {
    if rs != [] {
      JoinRequestMembership(rs[0], cs, o);
      JoinMembership(rs[1..], cs, o);
      if o in Join(rs[1..], cs) {
        var i, j :| 0 <= i < |rs[1..]| && 0 <= j < |cs| && Matches(rs[1..][i], cs[j]) && o == Emit(rs[1..][i], cs[j]);
        assert rs[1..][i] == rs[i + 1];
      }
      if o in JoinRequest(rs[0], cs) {
        var j :| 0 <= j < |cs| && Matches(rs[0], cs[j]) && o == Emit(rs[0], cs[j]);
      }
      if exists i, j :: 0 <= i < |rs| && 0 <= j < |cs| && Matches(rs[i], cs[j]) && o == Emit(rs[i], cs[j]) {
        var i, j :| 0 <= i < |rs| && 0 <= j < |cs| && Matches(rs[i], cs[j]) && o == Emit(rs[i], cs[j]);
        if i > 0 {
          assert rs[1..][i - 1] == rs[i];
        }
      }
    }
  }

  /**
   Every emitted record carries the join key, and its value is the evaluator's
   result for a request and a confirmation of that key, within the window,
   called with the request first.
   */
  lemma OutputsComeFromEvaluator(rs: seq<Record<PaymentRequest>>, cs: seq<Record<PaymentConfirmation>>, o: Output)
    requires o in Join(rs, cs)
    ensures exists i, j :: 0 <= i < |rs| && 0 <= j < |cs| && rs[i].key == o.key && cs[j].key == o.key
              && InWindow(rs[i].time, cs[j].time) && o.value == GetTransactionStatus(rs[i].value, cs[j].value)
  {
    JoinMembership(rs, cs, o);
    var i, j :| 0 <= i < |rs| && 0 <= j < |cs| && Matches(rs[i], cs[j]) && o == Emit(rs[i], cs[j]);
  }

  /** Every qualifying pair yields its output. */
  lemma QualifyingPairIsEmitted(rs: seq<Record<PaymentRequest>>, cs: seq<Record<PaymentConfirmation>>, i: nat, j: nat)
    requires i < |rs| && j < |cs|
    requires rs[i].key == cs[j].key && InWindow(rs[i].time, cs[j].time)
    ensures Output(rs[i].key, GetTransactionStatus(rs[i].value, cs[j].value)) in Join(rs, cs)
  {
    JoinMembership(rs, cs, Emit(rs[i], cs[j]));
  }

  /** With no confirmation at all, or no request at all, nothing is emitted. */
  lemma {:induction false} OneSidedGivesNothing(rs: seq<Record<PaymentRequest>>, cs: seq<Record<PaymentConfirmation>>)
    requires rs == [] || cs == []
    ensures Join(rs, cs) == []
  {
    if rs != [] {
      OneSidedGivesNothing(rs[1..], cs);
    }
  }

  /** A key present on only one side gets no output. */
  lemma KeyOnOneSideGivesNothing(rs: seq<Record<PaymentRequest>>, cs: seq<Record<PaymentConfirmation>>, k: string)
    requires (forall i :: 0 <= i < |rs| ==> rs[i].key != k) || (forall j :: 0 <= j < |cs| ==> cs[j].key != k)
    ensures forall o :: o in Join(rs, cs) ==> o.key != k
  {
    forall o | o in Join(rs, cs) ensures o.key != k {
      JoinMembership(rs, cs, o);
      var i, j :| 0 <= i < |rs| && 0 <= j < |cs| && Matches(rs[i], cs[j]) && o == Emit(rs[i], cs[j]);
    }
  }

  /**
   When every same-key pair is more than the window apart, the joiner is never
   called and nothing is emitted.
   */
  lemma OutOfWindowGivesNothing(rs: seq<Record<PaymentRequest>>, cs: seq<Record<PaymentConfirmation>>)
    requires forall i, j :: 0 <= i < |rs| && 0 <= j < |cs| && rs[i].key == cs[j].key ==> !InWindow(rs[i].time, cs[j].time)
    ensures Join(rs, cs) == []
  {
    if Join(rs, cs) != [] {
      JoinMembership(rs, cs, Join(rs, cs)[0]);
      assert false;
    }
  }

  /** One request and one confirmation give one output when they qualify, and none otherwise. */
  lemma SinglePair(r: Record<PaymentRequest>, c: Record<PaymentConfirmation>)
    ensures Join([r], [c]) == if r.key == c.key && InWindow(r.time, c.time)
                             then [Output(r.key, GetTransactionStatus(r.value, c.value))] else []
  {
    assert [r][1..] == [] && [c][1..] == [];
    assert JoinRequest(r, [c]) == (if Matches(r, c) then [Emit(r, c)] else []) + JoinRequest(r, []);
    assert Join([r], [c]) == JoinRequest(r, [c]) + Join([], [c]);
  }

  /**
   When the producers key each request by its transaction ID, the key of an
   emitted record (logged as the transaction ID) is the transaction ID of its
   status.
   */
  lemma OutputKeyIsTransactionID(rs: seq<Record<PaymentRequest>>, cs: seq<Record<PaymentConfirmation>>, o: Output)
    requires forall i :: 0 <= i < |rs| ==> rs[i].key == rs[i].value.transactionID
    requires o in Join(rs, cs)
    ensures o.key == o.value.transactionID
  {
    JoinMembership(rs, cs, o);
    var i, j :| 0 <= i < |rs| && 0 <= j < |cs| && Matches(rs[i], cs[j]) && o == Emit(rs[i], cs[j]);
  }

  // Restriction to one key

  function RecordKey<V>(r: Record<V>): string { r.key }

  function OutputKey(o: Output): string { o.key }

  /** The elements of `s` whose key, as `keyOf` reads it, is `k`, in their order. */
  function WithKey<T(!new)>(s: seq<T>, keyOf: T -> string, k: string): (r: seq<T>)
    ensures forall x :: x in r <==> x in s && keyOf(x) == k
  {
    if s == [] then []
    else (if keyOf(s[0]) == k then [s[0]] else []) + WithKey(s[1..], keyOf, k)
  }

  lemma {:induction false} WithKeyAppend<T(!new)>(a: seq<T>, b: seq<T>, keyOf: T -> string, k: string)
    ensures WithKey(a + b, keyOf, k) == WithKey(a, keyOf, k) + WithKey(b, keyOf, k)
  {
    if a == [] {
      assert a + b == b;
    } else {
      assert (a + b)[0] == a[0];
      assert (a + b)[1..] == a[1..] + b;
      WithKeyAppend(a[1..], b, keyOf, k);
    }
  }

  lemma {:induction false} JoinRequestWithKey(r: Record<PaymentRequest>, cs: seq<Record<PaymentConfirmation>>, k: string)
    ensures WithKey(JoinRequest(r, cs), OutputKey, k) == if r.key == k then JoinRequest(r, WithKey(cs, RecordKey, k)) else []
  {
    if cs != [] {
      var head := if Matches(r, cs[0]) then [Emit(r, cs[0])] else [];
      WithKeyAppend(head, JoinRequest(r, cs[1..]), OutputKey, k);
      JoinRequestWithKey(r, cs[1..], k);
      assert WithKey(head, OutputKey, k) == if r.key == k then head else [] by {
        if head != [] { assert head[1..] == []; }
      }
      if r.key == k {
        var rest := WithKey(cs[1..], RecordKey, k);
        if cs[0].key == k {
          assert WithKey(cs, RecordKey, k) == [cs[0]] + rest;
          assert ([cs[0]] + rest)[1..] == rest;
        } else {
          assert WithKey(cs, RecordKey, k) == rest;
          assert !Matches(r, cs[0]);
        }
      }
    }
  }

  /**
   The outputs for one key are the join of that key's requests with that key's
   confirmations: keys never interact, so the join can be partitioned by key.
   */
  lemma {:induction false} JoinPartitionsByKey(rs: seq<Record<PaymentRequest>>, cs: seq<Record<PaymentConfirmation>>, k: string)
    ensures WithKey(Join(rs, cs), OutputKey, k) == Join(WithKey(rs, RecordKey, k), WithKey(cs, RecordKey, k))
  {
    if rs != [] {
      WithKeyAppend(JoinRequest(rs[0], cs), Join(rs[1..], cs), OutputKey, k);
      JoinRequestWithKey(rs[0], cs, k);
      JoinPartitionsByKey(rs[1..], cs, k);
      var rest := WithKey(rs[1..], RecordKey, k);
      if rs[0].key == k {
        assert WithKey(rs, RecordKey, k) == [rs[0]] + rest;
        assert ([rs[0]] + rest)[1..] == rest;
      } else {
        assert WithKey(rs, RecordKey, k) == rest;
      }
    }
  }

  /**
   When a key has exactly one request and exactly one confirmation, the
   outputs for that key are exactly one status if the two are within the
   window and nothing otherwise.
   */
  lemma UniquePairPerKey(rs: seq<Record<PaymentRequest>>, cs: seq<Record<PaymentConfirmation>>, k: string,
                         r: Record<PaymentRequest>, c: Record<PaymentConfirmation>)
    requires WithKey(rs, RecordKey, k) == [r] && WithKey(cs, RecordKey, k) == [c]
    ensures WithKey(Join(rs, cs), OutputKey, k) ==
            if InWindow(r.time, c.time) then [Output(k, GetTransactionStatus(r.value, c.value))] else []
  {
    JoinPartitionsByKey(rs, cs, k);
    assert r in WithKey(rs, RecordKey, k) && c in WithKey(cs, RecordKey, k);
    SinglePair(r, c);
  }
}
