/**
 The event records of the OTP validation service. The input events keep
 their transaction ID and OTP, which the status evaluator reads, and their
 creation time, which only the service's logging reads: it is kept to show
 that neither the evaluator nor the join depends on it. The derived event
 keeps its transaction ID and status string.
 */
module Events {

  /** A payment request, produced when a payment is initiated. */
  datatype PaymentRequest = PaymentRequest(transactionID: string, otp: string, createdTime: int)

  /** A payment confirmation, produced when the user echoes the OTP back. */
  datatype PaymentConfirmation = PaymentConfirmation(transactionID: string, otp: string, createdTime: int)

  /** The derived event; `status` is the string the evaluator sets. */
  datatype TransactionStatus = TransactionStatus(transactionID: string, status: string)

  /**
   A record of a keyed stream: its key, its value and the timestamp the join
   compares. The join timestamp is a field of its own: which time the stream
   extracts is configured outside the service, so it is not tied to the
   value's `createdTime`. Stream timestamps are milliseconds and never negative.
   */
  datatype Record<V> = Record(key: string, value: V, time: nat)

  /** A record of the joined output stream: the join key and the joiner's value. */
  datatype Output = Output(key: string, value: TransactionStatus)
}
