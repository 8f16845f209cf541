/** The status evaluator: one matched request and confirmation give one status. */
module RecordBuilder {
  import opened Events

  const Success: string := "Success"
  const Failure: string := "Failure"

  /**
   The status of a matched pair. The OTPs are compared by exact string
   equality (no trimming, no case folding); the transaction ID is the
   request's.
   */
  function GetTransactionStatus(request: PaymentRequest, confirmation: PaymentConfirmation): (r: TransactionStatus)
    ensures r.transactionID == request.transactionID
    ensures r.status == Success <==> request.otp == confirmation.otp
    ensures r.status == Failure <==> request.otp != confirmation.otp
    ensures r.status == Success || r.status == Failure
  {
    var status := if request.otp == confirmation.otp then Success else Failure;
    TransactionStatus(request.transactionID, status)
  }

  /** The status does not change when the two OTP strings are swapped. */
  lemma StatusSymmetricInOtp(request: PaymentRequest, confirmation: PaymentConfirmation)
    ensures GetTransactionStatus(request.(otp := confirmation.otp), confirmation.(otp := request.otp)).status
         == GetTransactionStatus(request, confirmation).status
  {
  }

  /**
   The result depends only on the request's transaction ID and the two OTPs:
   not on either creation time, not on the confirmation's transaction ID.
   */
  lemma StatusIgnoresOtherFields(request: PaymentRequest, confirmation: PaymentConfirmation,
                                 request': PaymentRequest, confirmation': PaymentConfirmation)
    requires request'.transactionID == request.transactionID
    requires request'.otp == request.otp && confirmation'.otp == confirmation.otp
    ensures GetTransactionStatus(request', confirmation') == GetTransactionStatus(request, confirmation)
  {
  }

  /** The comparison is case-sensitive and does not trim white space. */
  lemma ComparisonIsExact()
    ensures GetTransactionStatus(PaymentRequest("T1", "abc", 0), PaymentConfirmation("T1", "ABC", 0)).status == Failure
    ensures GetTransactionStatus(PaymentRequest("T1", "4821", 0), PaymentConfirmation("T1", "4821 ", 0)).status == Failure
    ensures GetTransactionStatus(PaymentRequest("T1", "4821", 0), PaymentConfirmation("T1", "4821", 0)).status == Success
  {
  }
}
