# OTP validation: status evaluator and windowed join

This project models the core of a small stream-processing service that checks
one-time passwords. Payment requests and payment confirmations arrive on two
keyed streams. The service inner-joins the request stream with the confirmation
stream on the record key, within a window of five minutes before or after.
For each joined pair it derives a transaction status: `"Success"` when the two
OTP strings are equal, `"Failure"` otherwise. The status carries the request's
transaction ID.

Modules:

- `Events` (`events.dfy`): the request, confirmation and status records, a keyed
  and timestamped stream `Record`, and the joined `Output` (key and status).
- `RecordBuilder` (`record_builder.dfy`): the status evaluator, a total function.
- `OTPValidationService` (`otp_validation_service.dfy`): the join that the
  service configures. It is a pure function of the two streams' finite
  prefixes. Every request/confirmation pair with equal keys and times at most
  300000 ms apart (inclusive, either side first) yields one output, the
  evaluator's result with the request as first argument. Lemmas cover
  membership in both directions, one-sided and out-of-window inputs, the key
  of each output, and partitioning by key.
- `StreamJoin` (`stream_join.dfy`): the same join as the stream processor runs
  it, one arrival at a time. Each side buffers what it has seen, and an
  arrival is joined with every matching buffered record of the other side.
  `ProcessIsJoin` proves that for every interleaving this emits, up to order,
  exactly the pair-wise join.
- `Scenarios` (`scenarios.dfy`): concrete runs on the five-minute window.

A buffer in which a match consumes the first qualifying candidate would give
one output for two confirmations of one key followed by one request. The code
does not do this. It hands matching to the stream library's inner
stream-stream join (`request.join(confirmation, …, JoinWindows.of(Duration.ofMinutes(5)), …)`),
and that join removes nothing on a match. It calls the joiner once per
qualifying pair. The model follows the code:
`Scenarios.DuplicateConfirmationsBothJoin` shows two outputs for that input, a
success and a failure.

## Model

| member | source | states |
|---|---|---|
| `RecordBuilder.GetTransactionStatus` | src/main/java/com/example/otpvalidation/services/RecordBuilder.java:12-21 | the status is "Success" exactly when the OTPs are equal and "Failure" exactly when they differ, always one of the two; the transaction ID is the request's |
| `RecordBuilder.StatusSymmetricInOtp` | src/main/java/com/example/otpvalidation/services/RecordBuilder.java:14 | swapping the two OTP strings leaves the status unchanged |
| `RecordBuilder.StatusIgnoresOtherFields` | src/main/java/com/example/otpvalidation/services/RecordBuilder.java:12-20 | the result depends only on the request's transaction ID and the two OTPs, not on creation times or the confirmation's transaction ID |
| `RecordBuilder.ComparisonIsExact` | src/main/java/com/example/otpvalidation/services/RecordBuilder.java:14 | the comparison is case-sensitive and does not trim: "abc" vs "ABC" and "4821" vs "4821 " fail, equal strings succeed |
| `OTPValidationService.WindowBoundary` | src/main/java/com/example/otpvalidation/services/OTPValidationService.java:56 | five minutes is 300000 ms; a pair exactly 300000 ms apart is in the window on either side, 300001 ms apart is not |
| `OTPValidationService.WindowSymmetric` | src/main/java/com/example/otpvalidation/services/OTPValidationService.java:56 | the window relation is the same whichever side came first |
| `OTPValidationService.JoinRequestMembership` | src/main/java/com/example/otpvalidation/services/OTPValidationService.java:54-56 | one request's outputs are exactly its evaluations with the confirmations it matches |
| `OTPValidationService.JoinMembership` | src/main/java/com/example/otpvalidation/services/OTPValidationService.java:54-56 | an output is in the join if and only if it is the evaluation of some request and confirmation with equal keys within the window |
| `OTPValidationService.OutputsComeFromEvaluator` | src/main/java/com/example/otpvalidation/services/OTPValidationService.java:55 | every output carries the join key and equals the evaluator's result for a same-key, in-window request and confirmation, request first |
| `OTPValidationService.QualifyingPairIsEmitted` | src/main/java/com/example/otpvalidation/services/OTPValidationService.java:54-56 | every same-key pair within the window yields its output |
| `OTPValidationService.OneSidedGivesNothing` | src/main/java/com/example/otpvalidation/services/OTPValidationService.java:50-52 | with no requests or no confirmations at all, nothing is emitted |
| `OTPValidationService.KeyOnOneSideGivesNothing` | src/main/java/com/example/otpvalidation/services/OTPValidationService.java:50-52 | a key that only one stream carries gets no output |
| `OTPValidationService.OutOfWindowGivesNothing` | src/main/java/com/example/otpvalidation/services/OTPValidationService.java:51-52 | when every same-key pair is more than the window apart, nothing is emitted |
| `OTPValidationService.SinglePair` | src/main/java/com/example/otpvalidation/services/OTPValidationService.java:54-56 | one request and one confirmation give exactly their evaluation when keys are equal and times within the window, and nothing otherwise |
| `OTPValidationService.OutputKeyIsTransactionID` | src/main/java/com/example/otpvalidation/services/OTPValidationService.java:54-60 | when requests are keyed by their transaction ID, the key of each output (logged as the transaction ID) is its status's transaction ID |
| `OTPValidationService.JoinPartitionsByKey` | src/main/java/com/example/otpvalidation/services/OTPValidationService.java:54 | the outputs for a key are the join of that key's requests with that key's confirmations |
| `OTPValidationService.UniquePairPerKey` | src/main/java/com/example/otpvalidation/services/OTPValidationService.java:54-56 | a key with one request and one confirmation gets exactly one status if they are within the window, and none otherwise |
| `StreamJoin.ProcessIsJoin` | src/main/java/com/example/otpvalidation/services/OTPValidationService.java:54-56 | processing arrivals one at a time, each probing the other side's buffer, emits up to order exactly the pair-wise join of all arrivals |
| `StreamJoin.InterleavingIrrelevant` | src/main/java/com/example/otpvalidation/services/OTPValidationService.java:54 | two interleavings of the same two streams emit the same outputs up to order |
| `StreamJoin.ProcessMembership` | src/main/java/com/example/otpvalidation/services/OTPValidationService.java:54-56 | an output of the running join is the evaluation of a matching buffered pair, and every such pair's evaluation is emitted |
| `Scenarios.MatchingOtpSucceeds` | src/main/java/com/example/otpvalidation/services/RecordBuilder.java:13-19 | equal OTPs two minutes apart give one "Success" for T1 |
| `Scenarios.DifferentOtpFails` | src/main/java/com/example/otpvalidation/services/RecordBuilder.java:13-19 | different OTPs one minute apart give one "Failure" for T2 |
| `Scenarios.LateConfirmationGivesNothing` | src/main/java/com/example/otpvalidation/services/OTPValidationService.java:56 | a confirmation 400000 ms after its request gives nothing |
| `Scenarios.BoundaryPairMatches` | src/main/java/com/example/otpvalidation/services/OTPValidationService.java:56 | a confirmation exactly 300000 ms before the request matches; 300001 ms does not |
| `Scenarios.DuplicateConfirmationsBothJoin` | src/main/java/com/example/otpvalidation/services/OTPValidationService.java:54-56 | two buffered confirmations of one key both join a later request: a "Success" and a "Failure" are emitted |

## Left out

- Logging (`foreach` with `log.info`, OTPValidationService.java lines 39-44 and 60) and the time formatting in it: side-effect output. The `foreach` calls on the input streams are terminal sinks, and the join reads the input streams themselves, so the model passes the input sequences to `Join` unchanged.
- Serdes and JSON serialisation (lines 57-59): codec selection in a foreign library.
- The stream-channel binding interface and Spring wiring (`@Service`, `@Autowired`, `@EnableBinding`, `@StreamListener`, `@Input`): plumbing with no logic.
- Which timestamp the join compares: it is configured outside the service, so `Record.time` is an abstract non-negative field, separate from `createdTime`.
- The timestamp of a joined output record: the library sets it and the service never reads it, so `Output` has only key and value.
- Library internals: state stores, retention and grace periods, records dropped as late or out of order, repartitioning, partitions and threads. The model assumes every record stays in its buffer for as long as it matters.
- Null keys, values or OTPs: the library skips records with a null key or value, and a null request OTP would make the `equals` call throw. The model's fields are always present.
- The order of emitted records: `Join` lists them request by request and `Process` in arrival order; the two are proved equal as multisets only.
