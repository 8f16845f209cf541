/** Concrete runs of the join, on the service's own five-minute window. */
module Scenarios {
  import opened Events
  import opened RecordBuilder
  import opened OTPValidationService
  import opened StreamJoin

  function Req(id: string, otp: string, time: nat): Record<PaymentRequest> {
    Record(id, PaymentRequest(id, otp, time), time)
  }

  function Conf(id: string, otp: string, time: nat): Record<PaymentConfirmation> {
    Record(id, PaymentConfirmation(id, otp, time), time)
  }

  /** Equal OTPs two minutes apart: one success. */
  lemma MatchingOtpSucceeds()
    ensures Join([Req("T1", "4821", 0)], [Conf("T1", "4821", 120000)]) == [Output("T1", TransactionStatus("T1", Success))]
  {
    SinglePair(Req("T1", "4821", 0), Conf("T1", "4821", 120000));
  }

  /** Different OTPs one minute apart: one failure. */
  lemma DifferentOtpFails()
    ensures Join([Req("T2", "1111", 0)], [Conf("T2", "9999", 60000)]) == [Output("T2", TransactionStatus("T2", Failure))]
  {
    SinglePair(Req("T2", "1111", 0), Conf("T2", "9999", 60000));
    assert "1111"[0] != "9999"[0];
  }

  /** A confirmation more than five minutes after its request: nothing. */
  lemma LateConfirmationGivesNothing()
    ensures Join([Req("T3", "5555", 0)], [Conf("T3", "5555", 400000)]) == []
  {
    SinglePair(Req("T3", "5555", 0), Conf("T3", "5555", 400000));
  }

  /** A confirmation exactly five minutes before its request still matches. */
  lemma BoundaryPairMatches()
    ensures Join([Req("T5", "7", 300000)], [Conf("T5", "7", 0)]) == [Output("T5", TransactionStatus("T5", Success))]
    ensures Join([Req("T5", "7", 300001)], [Conf("T5", "7", 0)]) == []
  {
    SinglePair(Req("T5", "7", 300000), Conf("T5", "7", 0));
    SinglePair(Req("T5", "7", 300001), Conf("T5", "7", 0));
  }

  /**
   Two confirmations of one key arrive first, then a request within the window
   of both: the request is joined with each of them, so two statuses are
   emitted, a success for the equal OTP and a failure for the other.
   */
  lemma DuplicateConfirmationsBothJoin()
    ensures Process([ConfirmationArrived(Conf("T4", "1", 0)), ConfirmationArrived(Conf("T4", "2", 1000)),
                     RequestArrived(Req("T4", "1", 500))])
         == [Output("T4", TransactionStatus("T4", Success)), Output("T4", TransactionStatus("T4", Failure))]
  {
    var c1, c2, r := Conf("T4", "1", 0), Conf("T4", "2", 1000), Req("T4", "1", 500);
    var a1 := [ConfirmationArrived(c1)];
    var a2 := a1 + [ConfirmationArrived(c2)];
    assert a1 == [] + [ConfirmationArrived(c1)];
    ArrivalAppended([], ConfirmationArrived(c1));
    ArrivalAppended(a1, ConfirmationArrived(c2));
    ArrivalAppended(a2, RequestArrived(r));
    assert Confirmations(a2) == [c1, c2] && Process(a2) == [];
    assert [c1, c2][1..] == [c2] && [c2][1..] == [];
    assert JoinRequest(r, [c1, c2]) == [Emit(r, c1)] + JoinRequest(r, [c2]);
    assert JoinRequest(r, [c2]) == [Emit(r, c2)] + JoinRequest(r, []);
    assert "2" != "1";
    assert a2 + [RequestArrived(r)] == [ConfirmationArrived(c1), ConfirmationArrived(c2), RequestArrived(r)];
  }
}
