# Proofs about the zero-knowledge identity system

A Dafny model of the decisions that the identity system's services make, with proofs of
what those decisions guarantee. It covers seven connected parts.

1. **From schema to circuit.** A JSON schema is normalised, its fields are laid out in secret
   and public slots, values are converted and assigned, and its constraints are compiled to
   assertions over the BN254 scalar field (`ScalarField`, `Schema`, `Decimal`, `Values`,
   `Circuit`, `Compiler`, `DateAge`, `Correctness`, `Shapes`, `Operators`, `Gregorian`,
   `Prover`). pkg and the wallet
   share one compiler (the `Timestamped` dialect); blockchain-client has its own (`Calendar`).
2. **Presentation requests.** The request store, verdicts and purge timers over time
   (`Requests`, `Outcomes`, `Retention`), concurrent calls on one request (`Submissions`), the waiter
   channels (`Waiters`), and the key caches (`KeyCache`, `Artifacts`).
3. **Outbox.** The event table and its failure and result consumers (`Outbox`).
4. **Proof storage.** The Borsh package, account sizing, the on-chain instruction and the
   reader (`ProofStorage`).
5. **Wallet assignment.** How fields are filled from credentials (`WalletAssignment`, `Resolution`).
6. **URL clean-up.** `normalizeWeirdURL` (`Strings`, `UrlNormalizer`, `SchemeRepair`), and with it the echo of
   audience and nonce (`Echo`).
7. **Pre-authorized code flow.** Offer, token and credential (`VciFlow`).

## How to read it

Code that updates state is a class or a method with loops. Each such method is proved equal
to a function of its inputs or of the old state, and the guarantees are lemmas about those
functions, over all inputs, all runs or all interleavings. A run is a sequence of actions, an
action is one atomic step, and `Run` gives the state after a sequence in which every action
was enabled. In `Waiters`, `KeyCache`, `Submissions` and `VciFlow` an action is one critical section or one
channel operation, so the results hold for every interleaving of concurrent calls. In
`Requests` and `Outbox` an action is one whole call.

An assertion is evaluated on canonical representatives in `[0, P)`. A constraint has a
meaning in three orders (`ScalarField.Order`): `Field` is what the assertions compare,
`Signed` is its closed form on int64 values, and `Integer` is ordinary comparison.

Functions that specify a method are in turn tied down without naming them: `Operators`,
`Outcomes`, `Resolution` and `SchemeRepair` say in plain terms what an operator text demands,
what a submission must be to succeed, where a claim is found and what the URL repair does.

The library functions a computation depends on are parameters: SHA-256, base64, number,
boolean and time parsing, Groth16 setup and verification. Time and fresh random identifiers
are parameters of the steps.

## What turned out to need a condition

- **Signs.** A negative integer is encoded near P. Which comparisons of int64 values the field
  decides as the integers do is a question of signs (`ScalarField.IntegerReadingIsExact`), and
  so is whether a compiled constraint means what it says
  (`Correctness.CircuitMeansConstraintIff`). A range from -5 to 10 accepts nothing
  (`Correctness.RangeAcrossZeroAcceptsNothing`). Non-negative values are always safe
  (`Correctness.CompilerCorrectOnNonNegative`), and a strict comparison wraps exactly when its
  smaller side is encoded as P - 1 (`ScalarField.StrictComparisonWraps`).
- **Retention of a verdict.** A verified verdict is not always readable for 900 s less the TTL:
  expiry is compared in whole Unix seconds, so a success may come up to a second after the
  TTL has passed, while the purge timer of an earlier failure is already running.
  `Retention.RetentionCanFail` builds such a run. What is kept is given exactly for every TTL
  by `Retention.RetentionIsExact`, in terms of the first verdict for a TTL up to 899 s by
  `Retention.RetentionWithinTTL`, and `Retention.VerdictRetained` has the bound that always holds.
- **Concurrent submissions.** `VerifySubmission` loads, deletes and records in separate steps,
  and the creation handler saves a request with a callback a second time. Two submissions can
  both take a request, or one can overwrite the other's "verified" by "failed", only when a load
  overlaps another call on it, or when the second save puts a taken request back
  (`Submissions.TakenTwiceNeedsOverlap`, `Submissions.VerdictIsFinalIff`,
  `Submissions.CanReturnIff`).
- **What a proof is bound to.** A proof package is tied to its schema only: it is accepted again
  for another request of the schema exactly when the echo tests pass, and they are skipped
  without public inputs (`Requests.AcceptedPackageIsReusable`, `Echo.EchoPassesIff`).
- **Key caches.** A concurrent call that missed the cache can still replace the keys of a cached
  schema, also those of a stored request whose wallet has fetched the earlier PK. The bytes are
  final exactly when no such call is under way with others (`KeyCache.KeysAreFinalIff`).
- **Single use of an offer code.** The token handler looks a code up and removes it in two
  separate critical sections, so a code is single-use exactly when no look-up of it overlaps
  another exchange of it (`VciFlow.SingleUseIsExact`, `VciFlow.CodeCanBeRedeemedTwice`).
- **Late results.** `ProcessVerificationResult` overwrites the error of looking the event up.
  A result for a closed event is harmless exactly when no identity has the empty id
  (`Outbox.LateResult`).
- **pkg's default schema.** It gives three fields to an age constraint that pkg's compiler
  requires to have one, so it never compiles there (`Shapes.PkgDefaultDoesNotCompileInPkg`).
  `Shapes.CompilesIff` says which schemas do.
- **365-day years.** The rule in seconds is not "at least n years old". While n 365-day years
  have not passed since 1970, the threshold is negative, lies near P, and admits every
  non-negative timestamp: in 2025 a bound of 60 years admits a five-year-old
  (`Gregorian.FiveYearOldIsAdmitted`). From then on someone is accepted early by exactly the leap
  days between birth and the birthday. `Gregorian.AcceptanceIsExact` and
  `Gregorian.BirthdayRuleIff` say this for every clock; with a threshold of zero or more,
  `Gregorian.MatchesBirthdaysIff` gives the dates without any difference and
  `Gregorian.ShortfallIsReached` the largest one, ceil(n / 4) days.
- **Age schemas and their keys.** The service keeps the keys of the first setup, while the wallet
  compiles anew for each proof, and an age constraint compiles to the current second. The
  wallet's circuit is the one behind the keys only in the second of that setup
  (`Artifacts.WalletFitsKeysIff`, `Artifacts.AgeSchemaFitsOneSecond`).

## Model

| member | source | states |
|---|---|---|
| ScalarField.SignedOrderIsExact | system/pkg/zkp/dynamic_circuit.go:238-250 | on int64 values of either sign, the gadgets' comparisons of encoded integers hold iff a closed sign-by-sign rule does |
| ScalarField.IntegerOrderIsExact | system/pkg/zkp/dynamic_circuit.go:238-250 | on integers from 0 to P - 2 all three comparisons are the ordinary ones |
| ScalarField.IntegerReadingIsExact | system/pkg/zkp/dynamic_circuit.go:238-250 | for int64 values: "at most" means the integer comparison iff the signs are equal, "less" iff they are, or for a left side of -1 iff the right side is not negative, and equality always |
| ScalarField.StrictComparisonWraps | system/pkg/zkp/dynamic_circuit.go:241-246 | `Add(x, 1) <= y` is `x < y` except exactly at x = P - 1, where it always holds |
| Schema.SchemaDefinition.Prepare | system/pkg/zkp/schema.go:67-111 | accepts a schema iff it has fields with distinct non-empty names and every constraint has a type and known fields; then fields and index are the normalised ones |
| Schema.SchemaDefinition.NormaliseFields | system/pkg/zkp/schema.go:72-94 | the in-place loop succeeds iff all names are non-empty and distinct, and then leaves every field normalised and indexed |
| Schema.CheckConstraints | system/pkg/zkp/schema.go:96-108 | accepts iff every constraint has a type, at least one field and only known fields |
| Schema.PrepareIsIdempotent | system/pkg/zkp/schema.go:67-111 | preparing keeps the names, establishes what later steps rely on, and a second time changes nothing |
| Schema.SecretFieldOrder | system/pkg/zkp/schema.go:118-127 | computes the order function for the non-public fields |
| Schema.PublicFieldOrder | system/pkg/zkp/schema.go:129-138 | computes the order function for the public fields |
| Schema.FieldOrderListsVisibility | system/pkg/zkp/schema.go:118-138 | an order contains exactly the names of its visibility, each once when names are distinct |
| Schema.FieldOrderKeepsOrder | system/pkg/zkp/schema.go:118-138 | of two names in an order, the earlier one comes from the earlier field |
| Schema.ValueIsNumber | system/pkg/zkp/schema.go:140-192 | a JSON number or numeric text in range is read cut off toward zero, `null` as 0, and anything else is refused |
| Decimal.ParseAfterPrint | system/zk-wallet-go/internal/app/zkp/prove_dynamic.go:43-53 | a printed hash is a base-ten numeral and parses back to the same number |
| Decimal.PrintAfterParse | system/zk-wallet-go/internal/app/zkp/prove_dynamic.go:43-53 | a base-ten numeral is reproduced by parsing and printing it |
| Values.StringEncodingsAgree | system/blockchain-client/src/zkp/value_conversion.go:46-56 | wallet, pkg and blockchain-client turn the same string into the same field element, and two strings compare equal in a circuit iff their hashes agree modulo P |
| Values.ConvertedBecomes | system/zk-wallet-go/internal/app/zkp/value_conversion.go:10-107 | what a value becomes, by field type and shape: a whole number in range is itself and a fraction is cut off toward zero, true is 1 and false 0, a timestamp is its seconds, a text its hash, in either code base |
| Values.ConvertsIff | system/zk-wallet-go/internal/app/zkp/value_conversion.go:10-107 | conversion succeeds exactly on the listed shapes of value |
| Circuit.IndexIsInverse | system/pkg/zkp/dynamic_circuit.go:48-53 | numbering a repetition-free order yields an index that is its inverse |
| Circuit.LayoutIsBijective | system/pkg/zkp/dynamic_circuit.go:34-56 | for every prepared schema the secret and public indices are disjoint bijections that cover all field names |
| Circuit.LayoutCovers | system/pkg/zkp/dynamic_circuit.go:120-126 | the error for a field without a circuit input is unreachable |
| Circuit.DynamicCircuit.constructor | system/pkg/zkp/dynamic_circuit.go:29-59 | a new circuit has the schema's layout and no assigned field |
| Circuit.FillIndex | system/pkg/zkp/dynamic_circuit.go:48-53 | the numbering loop computes each name's position |
| Circuit.DynamicCircuit.AssignValues | system/pkg/zkp/dynamic_circuit.go:80-140 | succeeds iff all names are known and convertible and no required field is missing, whatever the iteration order; then every assigned field reads back as the integer or text that its type and the shape of its value say, and the others are unchanged |
| Circuit.AssignableIff | system/pkg/zkp/dynamic_circuit.go:83-137 | an assignment succeeds iff every value names a field whose type takes its shape and every required field has a value |
| Circuit.AssignedBecomes | system/pkg/zkp/dynamic_circuit.go:88-126 | an assigned field is what its type and the shape of its value say |
| Circuit.DynamicCircuit.Store | system/pkg/zkp/dynamic_circuit.go:120-126 | writing one field's slot changes what that field reads as and no other |
| Circuit.CheckRequired | system/pkg/zkp/dynamic_circuit.go:131-137 | succeeds iff every required field was assigned |
| Compiler.Define | system/pkg/zkp/dynamic_circuit.go:142-162 | the loop emits the assertions of all constraints in order, stopping at the first that cannot be emitted |
| Operators.TwoFieldComparison | system/pkg/zkp/dynamic_circuit.go:211-253 | two fields, either code base, values from 0 to P - 2: each of the twelve operator texts compiles to the comparison it names, `ge` to at least, `gt` to more than, and so on |
| Operators.ConstantComparison | system/blockchain-client/src/zkp/dynamic_circuit.go:161-216 | the same for one field against a constant, with what a number, text, boolean or date constant stands for beside a field of each type |
| Operators.StringComparison | system/pkg/zkp/dynamic_circuit.go:217-250 | a string field meets an equality with a text constant iff the two hashes agree modulo P, along all three code paths |
| Operators.RangeDemands | system/pkg/zkp/dynamic_circuit.go:164-194 | a range of two whole numbers accepts exactly the values between them, both included |
| Compiler.CompileFailsIff | system/pkg/zkp/dynamic_circuit.go:142-162 | compilation fails iff some constraint cannot be emitted |
| Shapes.EmitSucceedsIff | system/pkg/zkp/dynamic_circuit.go:151-288 | a constraint of a prepared schema can be emitted iff its type, number of fields, operator and value have an explicit shape, whatever the clock |
| Shapes.CompilesIff | system/blockchain-client/src/zkp/dynamic_circuit.go:107-306 | in either code base a prepared schema compiles iff all its constraints have that shape |
| Shapes.PkgDefaultDoesNotCompileInPkg | system/pkg/zkp/default_schema.go:3-23 | pkg's default schema passes `prepare`, compiles in blockchain-client, and never in pkg |
| Compiler.CompileStopsAtError | system/pkg/zkp/dynamic_circuit.go:143-147 | once a prefix of the constraints fails to compile, the schema does |
| Compiler.ComparisonIsExact | system/pkg/zkp/dynamic_circuit.go:238-253 | each operator's assertion holds iff the operator's comparison holds on the integers its two terms encode |
| Compiler.EmitIsExact | system/pkg/zkp/dynamic_circuit.go:164-281 | the assertions of one range, comparison or timestamp-age constraint hold on encoded integers iff the constraint does |
| Correctness.CalendarAgeIsExact | system/blockchain-client/src/zkp/dynamic_circuit.go:218-275 | the assertions of a calendar age constraint hold iff month and day are in range and the date is not after the threshold date |
| Correctness.DateAgeMeansCompletedYears | system/blockchain-client/src/zkp/dynamic_circuit.go:218-275 | a compiled age constraint accepts exactly the dates of birth with at least the minimum of completed years |
| Correctness.CompileIsExact | system/blockchain-client/src/zkp/dynamic_circuit.go:107-275 | for both compilers, any constraint list, any layout and any integers: the circuit accepts the encoded integers iff every constraint holds in the field's order |
| Correctness.CompilerCorrect | system/pkg/zkp/dynamic_circuit.go:142-281 | with no condition on the integers: the circuit accepts iff each constraint holds, read as plain integers where its operands are from 0 to P - 2, in the signed closed form on other int64 operands, and modulo P where a larger one, such as a string's hash, occurs |
| Correctness.OperandsDecide | system/pkg/zkp/dynamic_circuit.go:151-281 | a constraint's truth depends only on how an order compares its operands |
| Correctness.MeansAgree | system/pkg/zkp/dynamic_circuit.go:151-281 | one constraint: the field's order may be replaced by the signed closed form on int64 operands and by plain comparison on small non-negative ones |
| Correctness.CompilerCorrectOnNonNegative | system/pkg/zkp/dynamic_circuit.go:142-281 | with all operands from 0 to P - 2 the circuit accepts iff every constraint holds on the integers themselves |
| Correctness.CompilerCorrectOnSigned | system/pkg/zkp/dynamic_circuit.go:142-281 | with int64 operands of either sign the circuit accepts iff every constraint holds in the signed closed form |
| Correctness.MeaningIsExact | system/pkg/zkp/dynamic_circuit.go:151-281 | a constraint on int64 values means the same of field elements and of integers iff the signs of what it compares agree in a stated way, for every kind of constraint |
| Correctness.CircuitMeansConstraintIff | system/pkg/zkp/dynamic_circuit.go:151-281 | the compiled constraint accepts int64 values as the constraint does iff those signs agree |
| Correctness.CompilerCorrectWhenSignsAgree | system/pkg/zkp/dynamic_circuit.go:142-281 | a whole circuit accepts int64 values as its constraints do when the signs agree in each of them |
| Correctness.RangeAcrossZeroAcceptsNothing | system/pkg/zkp/dynamic_circuit.go:164-194 | the range from -5 to 10 is accepted by `prepare` and compiles to a circuit that accepts no int64 value, so not 3 either |
| Compiler.EmitClock | system/zk-wallet-go/internal/app/zkp/dynamic_circuit.go:251-274 | two clock readings give the same assertions for a constraint iff it is not an age constraint or the seconds are equal; success never depends on the clock |
| Compiler.SameCircuitIff | system/zk-wallet-go/internal/app/zkp/dynamic_circuit.go:135-274 | prover and verifier build the same assertion list iff the schema has no age constraint or both compile in the same second |
| DateAge.DateAgeEvaluated | system/blockchain-client/src/zkp/dynamic_circuit.go:251-272 | the seven assertions with their `Select`, `And` and `IsZero` gadgets, as a condition on three field elements |
| DateAge.DateAgeIsExact | system/blockchain-client/src/zkp/dynamic_circuit.go:251-272 | exactly the triples with month 1..12, day 1..31 and a date lexicographically at most the threshold date pass, over the whole field |
| DateAge.DefaultSchemaIsAcceptable | system/blockchain-client/src/zkp/default_schema.go:3-16 | the default age schema passes `prepare` unchanged |
| DateAge.DefaultCompiles | system/blockchain-client/src/zkp/default_schema.go:3-16 | its layout and assertion list, for every clock reading |
| DateAge.IdentityCircuitIsDefaultSchema | system/pkg/zkp/identity_circuit.go:17-52 | for one clock reading the fixed circuit and the default schema's circuit accept the same triples of field elements |
| Gregorian.BirthdayStep | system/pkg/zkp/dynamic_circuit.go:268-278 | consecutive birthdays are 365 days apart, or 366 when a leap day lies between |
| Gregorian.BirthdayIsExact | system/pkg/zkp/dynamic_circuit.go:268-278 | n birthdays span 365 n days and exactly the leap days between |
| Gregorian.LeapDaysAreFew | system/pkg/zkp/dynamic_circuit.go:268-278 | there are at most ceil(n / 4) of them |
| Gregorian.AgeConstraintOnSeconds | system/pkg/zkp/dynamic_circuit.go:258-281 | with non-negative birth timestamp and threshold the compiled constraint compares seconds |
| Gregorian.AgeRuleVersusBirthdays | system/pkg/zkp/dynamic_circuit.go:258-281 | whoever has reached the n-th Gregorian birthday is accepted by the compiled constraint; whoever is accepted, with a non-negative threshold, is at most ceil(n / 4) days short of that birthday |
| Gregorian.AcceptanceIsExact | system/pkg/zkp/dynamic_circuit.go:258-281 | at every clock since 1970 the compiled rule accepts iff n 365-day years have not yet passed since 1970, so that the threshold is negative, or the clock has reached the n-th birthday less the leap days between birth and that birthday |
| Gregorian.BirthdayRuleIff | system/pkg/zkp/dynamic_circuit.go:258-281 | at a clock the compiled rule says what the n-th birthday says iff n 365-day years have passed since 1970 and the clock is not within those leap days before the birthday |
| Gregorian.FiveYearOldIsAdmitted | system/pkg/zkp/dynamic_circuit.go:258-281 | in June 2025 a bound of 56 years or more is met by someone born on 1 January 2020 |
| Gregorian.MatchesBirthdaysIff | system/pkg/zkp/dynamic_circuit.go:258-281 | for a date of birth and n, the compiled rule is the birthday rule at all clocks with a threshold of zero or more iff no leap day lies between |
| Gregorian.ShortfallIsReached | system/pkg/zkp/dynamic_circuit.go:258-281 | the compiled constraint accepts someone born on 1 March 2003 exactly ceil(n / 4) days before each birthday until 2099 |
| Gregorian.AgeRuleSigns | system/pkg/zkp/dynamic_circuit.go:275-278 | the rule on timestamps of either sign: a negative threshold admits every non-negative timestamp, any other rejects every negative one |
| Prover.PreHashAll | system/zk-wallet-go/internal/app/zkp/prove_dynamic.go:43-53 | replaces exactly the values of string fields by the hash of their printed form |
| Prover.StringFieldHoldsHash | system/zk-wallet-go/internal/app/zkp/prove_dynamic.go:43-69 | after hashing, printing and parsing, a string field stands for the hash of the printed value |
| Prover.Collect | system/zk-wallet-go/internal/app/zkp/prove_dynamic.go:71-77 | a group of slots gives a witness iff every slot holds a readable value, and then the encodings of those values |
| Prover.NewWitness | system/zk-wallet-go/internal/app/zkp/prove_dynamic.go:65-77 | after the assignment a witness exists iff every field has an integer, and it is the encoding of those integers |
| Prover.ProveDynamic | system/zk-wallet-go/internal/app/zkp/prove_dynamic.go:26-77 | circuit and witness come out iff the schema is acceptable, compiles and the values name exactly its fields; the witness encodes the fields' integers and satisfies the circuit iff every constraint holds on them |
| Prover.IntegersHold | system/zk-wallet-go/internal/app/zkp/prove_dynamic.go:43-77 | those integers are what the values stand for, by field type and shape of value |
| Requests.Service.constructor | system/api/src/zkprequest/service.go:69-86 | a new service has an empty store, no verdicts and no caches |
| Requests.Service.CreateRequestFromSchema | system/api/src/zkprequest/service.go:110-141 | succeeds iff the schema is valid and its keys are cached or can be set up; then exactly the new request is stored |
| Requests.Service.CreatePresentation | system/api/src/zkprequest/handler.go:64-107 | loading, editing and saving the request again amounts to creating it with its callback |
| Requests.Service.SetVerdictFor | system/api/src/zkprequest/service.go:346-357 | replaces the verdict and starts a further 900 s timer, keeping the earlier ones |
| Requests.Service.RecordFail | system/api/src/zkprequest/service.go:149-162 | records a failed verdict and does not touch the store |
| Requests.Service.Check | system/api/src/zkprequest/service.go:177-220 | the first objection in order among audience, nonce, blob, package, missing key, unreadable key and rejected proof, or none |
| Requests.Service.VerifySubmission | system/api/src/zkprequest/service.go:147-236 | the whole transition: expired requests are consumed as failed, objections leave the request in the store, acceptance consumes it; success iff a verification is logged |
| Requests.Service.MockVerify | system/api/src/zkprequest/service.go:240-260 | the development transition, with its own expired state |
| Requests.Service.PurgeVerdict | system/api/src/zkprequest/service.go:351-356 | a due timer removes whatever verdict is there and itself |
| Requests.Service.Result | system/api/src/zkprequest/handler.go:277-322 | the verdict's state first, then unknown, expired or pending |
| Requests.Service.Status | system/api/src/zkprequest/handler.go:229-244 | consumed, expired or pending, from the store alone |
| Requests.InvAlways | system/api/src/zkprequest/service.go:147-260 | every state of every run: stored requests are live and keyed, timers and verdicts match, logged successes were in time, consumed and proved |
| Outcomes.SucceedsIff | system/api/src/zkprequest/service.go:164-223 | a submission succeeds iff id and blob are given, the request is stored and not past its expiry second, the inputs are absent or carry this audience and this request's non-empty nonce, and the blob decodes to a package that the readable key of the request's schema accepts |
| Outcomes.VerifyOutcome | system/api/src/zkprequest/service.go:147-236 | store, verdict with its reason, and new 900 s timer after every submission, case by case |
| Outcomes.MockOutcome | system/api/src/zkprequest/service.go:240-260 | the same for the development call |
| Outcomes.CreateOutcome | system/api/src/zkprequest/service.go:110-141 | a creation stores the request with its nonce, hash and expiry, TTL or 300 s ahead, and caches the keys, or changes nothing |
| Outcomes.VerdictsAreHonest | system/api/src/zkprequest/service.go:147-260 | in every run a verdict says "verified" iff a success of the request was logged, and otherwise "failed" or "expired" |
| Outcomes.AnswersBeforeVerdict | system/api/src/zkprequest/handler.go:229-322 | in every run, until its first verdict a request answers "pending" up to its expiry second and "expired" afterwards to both observers, and an id nobody created is unknown |
| Requests.VerifiedAtMostOnceAndInTime | system/api/src/zkprequest/service.go:147-260 | in every run a request is verified at most once, no later than its expiry second, and with a proof accepted under its own schema's key unless by `MockVerify` |
| Requests.OnlyMockNeedsNoProof | system/api/src/zkprequest/service.go:207-236 | in a run without `MockVerify` every success rests on a proof |
| Requests.SuccessIsNeverUndone | system/api/src/zkprequest/service.go:222-236 | after a success, in every continuation, the request is out of the store for good and its verdict is that success or purged, never failed |
| Requests.VKIsNeverMissing | system/api/src/zkprequest/service.go:207-213 | when setups give non-empty keys, "server VK not found" is unreachable for stored requests |
| Requests.AcceptedPackageIsReusable | system/api/src/zkprequest/service.go:177-220 | in every run, a package that was accepted once is accepted for every other live request of its schema iff the submitted inputs are absent or echo that request's audience and nonce |
| Retention.VerdictHasTimer | system/api/src/zkprequest/service.go:346-357 | every verdict always has a pending purge timer |
| Retention.ReadableUntilFirstTimer | system/api/src/zkprequest/service.go:171-175 | a verified verdict is readable until 900 s after the request's first verdict, which came less than TTL plus one second before it |
| Retention.VerdictRetained | system/api/src/zkprequest/service.go:129-136 | whatever failed before, a verified verdict stays readable for 900 s less the TTL less one second |
| Retention.RetentionIsExact | system/api/src/zkprequest/service.go:346-364 | for every TTL and every time: after a success the verdict is readable until then in every continuation iff it is readable now and no timer of an earlier verdict of the request is due before |
| Retention.RetentionWithinTTL | system/api/src/zkprequest/service.go:346-364 | for a TTL up to 899 s: it is readable for 900 s less the TTL in every continuation iff the request's first verdict is no older than the TTL |
| Retention.RetentionCanFail | system/api/src/zkprequest/service.go:171-175 | a family of runs of one creation and two submissions, the second accepted with a proof, after which 900 s less the TTL is not kept |
| Retention.TimerFires | system/api/src/zkprequest/service.go:351-356 | from any state, any pending timer can fire at its due time and end the verdict |
| Waiters.ListenerTable.Register | system/api/src/zkprequest/service.go:267-269 | appends the channel to its request's list |
| Waiters.ListenerTable.Take | system/api/src/zkprequest/service.go:298-301 | hands over the list and leaves no entry |
| Waiters.ListenerTable.Cleanup | system/api/src/zkprequest/service.go:279-292 | the filtering loop removes the channel and drops an empty list |
| Waiters.SendEach | system/api/src/zkprequest/service.go:303-308 | every channel with a free buffer gets the result and every full one keeps its content |
| Waiters.WithoutKeepsOrder | system/api/src/zkprequest/service.go:281-286 | filtering cuts out exactly the one position and keeps the rest in order |
| Waiters.InvAlways | system/api/src/zkprequest/service.go:264-309 | every reachable state: a channel is listed at most once and sent to at most once, with an empty buffer |
| Waiters.NothingIsDropped | system/api/src/zkprequest/service.go:303-308 | in every interleaving the `default` branch is never taken and every pending send finds an empty buffer |
| Waiters.EveryTakenWaiterIsServed | system/api/src/zkprequest/service.go:264-309 | every waiter taken off the list receives exactly that call's result or finds it in the channel, and no waiter receives anything else |
| Waiters.TakeCommitsToTheList | system/api/src/zkprequest/service.go:297-301 | a notifying call is committed to exactly the waiters listed for its request at the take |
| Waiters.CleanupIsLocal | system/api/src/zkprequest/service.go:277-293 | in every interleaving a timeout removes only its own channel, keeps the order of the others and leaves no empty list |
| KeyCache.ServiceCaches.Check | system/api/src/zkprequest/helpers.go:22-30 | a hit needs both keys |
| KeyCache.ServiceCaches.Commit | system/api/src/zkprequest/helpers.go:68-83 | one setup's keys and schema replace the three entries together |
| KeyCache.ServiceCaches.EnsureVKForSchema | system/api/src/zkprequest/helpers.go:19-86 | without interference: a hit changes nothing, a failed setup changes nothing, a successful one commits its keys |
| KeyCache.InvAlways | system/api/src/zkprequest/helpers.go:19-86 | every reachable state of concurrent calls has matching caches and runs owned by one call or one hash |
| KeyCache.CachesAreConsistent | system/api/src/zkprequest/helpers.go:19-86 | in every interleaving the caches cover the same hashes, each entry is one setup run's keys for a schema with that hash, and every stored request's hash is cached with a non-empty key |
| KeyCache.KeysComeFromOneSetup | system/api/src/zkprequest/helpers.go:54-83 | the VK and PK of a cached hash are the VK and the PK of one and the same setup of the schedule |
| KeyCache.SettledKeysStay | system/api/src/zkprequest/helpers.go:68-83 | once a hash is cached and no rival call is past its miss, its keys never change |
| KeyCache.RivalCanReplaceKeys | system/api/src/zkprequest/helpers.go:68-83 | if a rival call is, some continuation replaces the keys, so the condition is exact |
| KeyCache.KeysAreFinalIff | system/api/src/zkprequest/helpers.go:68-83 | the VK and PK bytes of a cached hash stay the same in every continuation iff no concurrent call is on its way to committing other bytes |
| Artifacts.WalletFitsKeysIff | system/api/src/zkprequest/helpers.go:22-83 | in every interleaving, a wallet that compiles a cached schema gets the assertions its keys were set up for iff the schema has no age constraint or the wallet compiles in the second of that setup |
| Artifacts.AgeSchemaFitsOneSecond | system/api/src/zkprequest/helpers.go:22-30 | once settled, a hash keeps that setup for good, so a schema with an age constraint fits its keys in one second only |
| Submissions.InvAlways | system/api/src/zkprequest/service.go:164-236 | in every interleaving of creations and submissions, a request that a call has deleted is out of the store unless its creation saved it again, it leaves the store only through a call, and a "verified" verdict was recorded by an accepted call |
| Submissions.CanReturnIff | system/api/src/zkprequest/handler.go:80-91 | a deleted request can come back into the store iff its creation handler loaded it before the deletion and has yet to save it |
| Submissions.TakenTwiceNeedsOverlap | system/api/src/zkprequest/service.go:167-223 | two submissions are accepted for one request only if one loaded it while the other held it undecided, or the request came back in that way |
| Submissions.OverlapCanTakeTwice | system/api/src/zkprequest/service.go:167-223 | after such a load both can be accepted, so that condition is exact |
| Submissions.ReturnCanTakeTwice | system/api/src/zkprequest/handler.go:80-91 | a taken request that its handler is about to save again can be taken once more, so that condition is exact |
| Submissions.VerdictIsFinalIff | system/api/src/zkprequest/service.go:149-230 | a "verified" verdict is never replaced by "failed" iff no call holds the request undecided or expired, it is not in the store, and its creation handler is not about to save it again |
| Submissions.SerialVerdictsAreFinal | system/api/src/zkprequest/service.go:149-230 | when no load of a request falls into its creation or into another call on it, its verified verdict is final |
| Submissions.VerdictCanBeOverwritten | system/api/src/zkprequest/service.go:149-230 | two overlapping submissions, after which a verified request is reported as failed |
| Outbox.Database.GetEventRow | system/api/src/outbox/outbox_repository.go:48-52 | finds exactly the open events and yields the zero event otherwise |
| Outbox.Database.CreateEvent | system/api/src/outbox/outbox_repository.go:54-71 | adds an open event with no retries |
| Outbox.Database.MarkEventAsProcessed | system/api/src/outbox/outbox_repository.go:79-96 | closes the event iff it is open |
| Outbox.Database.UpdateRetryValue | system/api/src/outbox/outbox_repository.go:99-125 | counts up an open event and closes it at the limit, in one transaction |
| Outbox.Database.SaveFailedAndUpdateOutbox | system/api/src/zkp/failed/service.go:28-42 | the failure consumer's effect on all tables and its outcome |
| Outbox.Database.ProcessVerificationResult | system/api/src/zkp/results/service.go:32-63 | the result consumer's effect on all tables and its outcome, including the ignored look-up error |
| Outbox.HandleAffects | system/api/src/zkp/failed/service.go:28-42 | what any message does to any one event: nothing unless it is about that event and the event is open |
| Outbox.FailureIsStored | system/api/src/zkp/failed/service.go:28-42 | a failure is stored in any case; the outcome is a panic iff the id is malformed and success iff the event is open |
| Outbox.ResultIsStored | system/api/src/zkp/results/service.go:35-62 | a result for an open event saves one proof with the signature, account, owner and schema row in their columns, adds the schema's row only if there is none, and closes the event |
| Outbox.UnknownIdentity | system/api/src/zkp/results/service.go:37-41 | a result for an open event of an unknown identity changes nothing |
| Outbox.OutboxRun | system/api/src/outbox/outbox_repository.go:48-125 | over every message sequence an event's retry count is the number of failures handled while it was open; it closes exactly at the sixth or at the first success, and one proof is saved iff a success came first |
| Outbox.RunFromEmpty | system/api/src/outbox/outbox_repository.go:54-125 | the same from an empty database: whatever came before its creation, an event ends as the messages after it say |
| Outbox.ClosedStays | system/api/src/zkp/results/service.go:32-63 | a closed event never changes again and gets no further proof |
| Outbox.LateResult | system/api/src/zkp/results/service.go:35-63 | a result for an event that is not open changes nothing iff no identity has the empty id, and otherwise saves a stray proof and panics |
| ProofStorage.U32RoundTrip | system/blockchain-client/src/zkp/zkp_result.go:43-49 | a length below the u32 limit survives its four bytes |
| ProofStorage.ParseIsExact | system/smart-contract/program/src/lib.rs:31-33 | a byte string is accepted as a package iff it is exactly that package's encoding |
| ProofStorage.EncodingLayout | system/blockchain-client/src/zkp/zkp_result.go:18-22 | length and bytes of proof, verifying key and public witness, in this order and nothing else |
| ProofStorage.U32IsLittleEndian | system/blockchain-client/src/zkp/zkp_result.go:43-49 | a length prefix has its least significant byte first |
| ProofStorage.EncodingIsUnique | system/smart-contract/program/src/lib.rs:10-15 | different packages have different encodings |
| ProofStorage.SerializeBorsh | system/blockchain-client/src/zkp/zkp_result.go:24-50 | the Go encoder writes the three length-prefixed vectors |
| ProofStorage.CalculateRequiredAccountSpace | system/blockchain-client/src/workers/verified_positive_worker.go:342-368 | the smallest multiple of 8 covering the data and its margin of 2048 bytes, or half the data above 10,000 bytes, and 2048 up to 1000 bytes |
| ProofStorage.ProcessInstruction | system/smart-contract/program/src/lib.rs:20-55 | the program's answer and the account afterwards, as a function of data and account |
| ProofStorage.WriteFront | system/smart-contract/program/src/lib.rs:50-51 | overwrites the front of the account and keeps the rest |
| ProofStorage.ProcessingIsExact | system/smart-contract/program/src/lib.rs:31-54 | success iff the data encodes a package and fits; the account then starts with exactly the data, and is untouched on every error |
| ProofStorage.StorageRoundTrip | system/blockchain-client/src/external/solana_reader.go:109-120 | on any account that is large enough, storing a package and reading its length back yields the package |
| ProofStorage.ReadBackIsExact | system/blockchain-client/src/external/solana_reader.go:109-120 | for any requested length the reader finds the package iff it asks for at least the bytes that were stored |
| ProofStorage.StoreAndRead | system/blockchain-client/src/workers/verified_positive_worker.go:342-368 | encoder, sizing, program and reader together always succeed and return the same package, so the too-small error is unreachable |
| ProofStorage.ShortLogFramesAreRejected | system/blockchain-client/src/workers/sink_logs_worker.go:58-64 | no frame "LOG:" with any bytes after it is taken for a package below 977,751,896 bytes |
| ProofStorage.LogFrameLengths | system/blockchain-client/src/workers/sink_logs_worker.go:58-64 | "LOG:" with some bytes after it is a package of a given length iff that length is from 977,751,896 to twice 4,294,967,295 more |
| ProofStorage.LogMessagesAreRejected | system/blockchain-client/src/workers/sink_logs_worker.go:58-64 | no frame of marshalled JSON, which has no byte below the space, is taken for a package below 2,055,704,472 bytes |
| ProofStorage.LogMessagesCanBePackages | system/blockchain-client/src/workers/sink_logs_worker.go:58-64 | at that length a frame can be one: whatever JSON surrounds the message text, blanks in it suffice |
| WalletAssignment.GetByPath | system/zk-wallet-go/internal/app/handlers/zkp_prove.go:35-53 | the loop follows the dotted path through nested objects |
| WalletAssignment.PathNeedsDots | system/zk-wallet-go/internal/app/handlers/zkp_prove.go:288-293 | for a name without dots the path fallback finds nothing the top level did not |
| WalletAssignment.ProcessCredential | system/zk-wallet-go/internal/app/handlers/zkp_prove.go:261-294 | the inner loop, with its three fallbacks, fills the fields still empty |
| WalletAssignment.BuildAssignments | system/zk-wallet-go/internal/app/handlers/zkp_prove.go:231-305 | the nested loops over credentials and fields, then the descriptor's audience and nonce |
| WalletAssignment.AssignmentsAreFirstHits | system/zk-wallet-go/internal/app/handlers/zkp_prove.go:245-305 | each schema field gets the value of the first credential that knows it, or the descriptor's; other names get nothing |
| Resolution.AssignedIff | system/zk-wallet-go/internal/app/handlers/zkp_prove.go:245-295 | a field gets a value iff some credential is the first to give it one: its own member, else the member of `vc.credentialSubject`, else the one its dotted parts lead to |
| Resolution.OneCredential | system/zk-wallet-go/internal/app/handlers/zkp_prove.go:263-294 | the three places one by one for a single credential, and nothing for an undotted name in neither of the first two |
| Resolution.DescriptorValues | system/zk-wallet-go/internal/app/handlers/zkp_prove.go:297-305 | "aud" and "nonce" come from the descriptor alone, each from its own value |
| Resolution.IssuedCredentialFills | system/zk-wallet-go/internal/app/handlers/vci_handlers.go:203-233 | the birth timestamp and university of the issuer's own credential reach the fields of these names |
| Resolution.ClaimsReachTheCircuit | system/zk-wallet-go/internal/app/zkp/prove_dynamic.go:43-77 | the integer in a field's slot is the one its claim stands for: numbers cut off, booleans 1 or 0, timestamps in seconds, texts hashed |
| WalletAssignment.MissingFields | system/zk-wallet-go/internal/app/handlers/zkp_prove.go:315-323 | lists exactly the fields nobody filled |
| WalletAssignment.CompleteKeys | system/zk-wallet-go/internal/app/handlers/zkp_prove.go:314-334 | when no field is missing, the assigned names equal the field names iff the descriptor gives the audience and nonce that the schema asks for |
| WalletAssignment.OnlyConversionCanFail | system/zk-wallet-go/internal/app/zkp/dynamic_circuit.go:73-133 | with the field names as keys, assignment fails iff some value cannot be converted: the unknown-field and missing-field errors are unreachable |
| WalletAssignment.PublicInputs | system/zk-wallet-go/internal/app/handlers/zkp_prove.go:355-363 | the loop computes the public inputs |
| WalletAssignment.PublicInputsLookup | system/zk-wallet-go/internal/app/handlers/zkp_prove.go:355-363 | they hold the public fields that are assigned, with their values, and nothing else |
| WalletAssignment.PublicInputsIgnoreSecrets | system/zk-wallet-go/internal/app/handlers/zkp_prove.go:355-363 | the public inputs depend only on what public fields are assigned |
| WalletAssignment.OrderDoesNotMatter | system/zk-wallet-go/internal/app/handlers/zkp_prove.go:245-295 | when credentials agree on what they both know, reordering them changes nothing |
| UrlNormalizer.ExhaustLoop | system/zk-wallet-go/internal/app/handlers/zkp_descriptor.go:147-149 | each replacement loop ends on every string and computes the exhaustive replacement |
| UrlNormalizer.NormalizeWeirdURL | system/zk-wallet-go/internal/app/handlers/zkp_descriptor.go:140-166 | ends on every string and leaves no "//" after the first "://" |
| UrlNormalizer.SlashLoopCollapses | system/zk-wallet-go/internal/app/handlers/zkp_descriptor.go:157-160 | the slash loop turns every run of slashes into one slash and does nothing else |
| UrlNormalizer.SingleSlashesAreFixed | system/zk-wallet-go/internal/app/handlers/zkp_descriptor.go:140-166 | every trimmed string without "//" after its first "://" is left as it is |
| UrlNormalizer.NormalizeIsIdempotent | system/zk-wallet-go/internal/app/handlers/zkp_descriptor.go:140-166 | normalising twice is normalising once |
| UrlNormalizer.BlanksAreIgnored | system/zk-wallet-go/internal/app/handlers/zkp_descriptor.go:141-144 | blanks around a URL make no difference |
| SchemeRepair.HttpRepeatedIsRepaired | system/zk-wallet-go/internal/app/handlers/zkp_descriptor.go:146-149 | however often "http://" stands before a rest without "//", it is kept once |
| SchemeRepair.HttpBehindHttpsIsRepaired | system/zk-wallet-go/internal/app/handlers/zkp_descriptor.go:146-152 | behind "https://", any number of "http://" is dropped |
| SchemeRepair.DoubledAudienceIsRepaired | system/zk-wallet-go/internal/app/handlers/zkp_descriptor.go:146-149 | the server's audience with its scheme doubled becomes the audience again, for a host without "//" |
| UrlNormalizer.AudienceIsEchoed | system/api/src/main.go:32-50 | the clean-up leaves the server's audience "http://" + host + ":9000" alone iff the host has no "//" |
| Echo.EchoPassesIff | system/api/src/zkprequest/service.go:177-196 | the service's audience and nonce tests pass on what the wallet submits iff the wallet submits no public input, or "aud" and "nonce" are both public fields and the audience is its own normal form |
| Echo.ServerEchoPassesIff | system/zk-wallet-go/internal/app/handlers/zkp_prove.go:298-374 | for the server's own audience the last condition is that the host has no "//" |
| VciFlow.Issuer.HandleCreateOffer | system/zk-wallet-go/internal/app/handlers/vci_handlers.go:27-53 | a logged-in user gets an offer for 300 s; without a session nothing changes |
| VciFlow.Issuer.HandleOfferByCode | system/zk-wallet-go/internal/app/handlers/vci_handlers.go:61-85 | an offer is shown exactly while its code could be exchanged |
| VciFlow.Issuer.HandleVciToken | system/zk-wallet-go/internal/app/handlers/vci_handlers.go:95-152 | a token is issued iff the grant is right and the code is live; it then belongs to the offer's user and the code is gone, and otherwise nothing changes |
| VciFlow.Issuer.HandleVciCredential | system/zk-wallet-go/internal/app/handlers/vci_handlers.go:163-201 | a credential is issued iff the header is a bearer header with a live token, and names that token's user |
| VciFlow.CredentialsTraceToOffers | system/zk-wallet-go/internal/app/handlers/vci_handlers.go:27-201 | in every interleaving a credential's subject is the user of an offer that was at most 300 s old when its code was looked up by the one exchange that minted the token, itself at most 300 s old |
| VciFlow.CodeIsUsableFor300Seconds | system/zk-wallet-go/internal/app/handlers/vci_handlers.go:42-120 | in every interleaving, until an exchange of it is through, an offered code is found with the offer's user exactly up to the 300th second |
| VciFlow.TokenIsUsableFor300Seconds | system/zk-wallet-go/internal/app/handlers/vci_handlers.go:130-178 | a minted token yields credentials for its user exactly up to the 300th second |
| VciFlow.MintRecords | system/zk-wallet-go/internal/app/handlers/vci_handlers.go:127-136 | a mint stores the user and nonce it was given and lasts 300 s |
| VciFlow.OtherGrantsAreRefused | system/zk-wallet-go/internal/app/handlers/vci_handlers.go:110-114 | under any grant type but the pre-authorized code's nothing is found and nothing else changes |
| VciFlow.TwoUsesIffOverlap | system/zk-wallet-go/internal/app/handlers/vci_handlers.go:117-141 | a code is found by two exchanges iff a look-up of it overlapped another exchange of it |
| VciFlow.SingleUseIsExact | system/zk-wallet-go/internal/app/handlers/vci_handlers.go:117-141 | two tokens for one code need such an overlap, and once no exchange of it waits to mint, an overlap gives two |
| VciFlow.CodeCanBeRedeemedTwice | system/zk-wallet-go/internal/app/handlers/vci_handlers.go:117-141 | a concrete interleaving that redeems one code twice |

## Left out

- Groth16, SHA-256, Borsh's and gnark's internals, JWS and Ed25519: libraries. Setup, verification and hashing are parameters, and gadgets are operations on canonical representatives.
- HTTP routing, message queues, Solana RPC, webhooks, QR codes, HTML, logging and configuration: input and output.
- gorm and Postgres: tables are maps and sequences, every statement succeeds, a row with `processed_at` set is closed, and the identities do not change during an outbox run.
- Redelivery of outbox events: nothing in the repository sets `ToProcess` to true.
- Whose identity an event belongs to: system/api/src/identity/service.go:60 reads it from the schema id, so nothing is claimed about it.
- `canonicalJSON` and the parsing of JSON text: the model starts from parsed values, with numbers as reals; rounding of numbers beyond exact float64 range and the type names JSON allows are not modelled, and a float outside int64 converts as on amd64.
- `strings.EqualFold` is written out for the one word "string" that the code compares with.
- Requests.Service.VerifySubmission: one atomic call, like creation, so a hash's VK never changes there; `Submissions` and `KeyCache` have the interleavings, and there the decision and the time are left open.
- Requests.Service.Check: public inputs are given in the printed form that `fmt.Sprint` produces.
- Retention.VerdictRetained: one second weaker than 900 s less the TTL, which the code does not always keep; `Retention.RetentionIsExact` has the exact condition.
- Gregorian.ShortfallIsReached: for one date of birth and 96 years, since 2100 has no leap day; `Gregorian.AcceptanceIsExact` covers every date and n.
- Gregorian.AcceptanceIsExact: bounds whose seconds exceed int64, which wrap, are covered by `Gregorian.AgeRuleSigns` only; dates of birth before 1970 likewise.
- Requests.Service.CreatePresentation: one atomic call; `Submissions` has its two saves.
- Artifacts.WalletFitsKeysIff: equality of assertion lists, not what Groth16 makes of different ones.
- Echo.EchoPassesIff: audience and nonce are neither empty nor the text `<nil>` that a missing value prints as; the server generates both.
- Submissions.VerdictIsFinalIff: verdicts are not purged in that module.
- ProofStorage.CalculateRequiredAccountSpace: `float64(n) * 1.5` is taken as exact, which it is below 2^52.
- ProofStorage.StorageRoundTrip: the reader's `borsh.Deserialize` is taken to read a prefix, and the decoding of the three byte vectors into gnark objects is not modelled.
- VciFlow.SingleUseIsExact: codes and tokens are fresh random strings, and the clock does not go back.
- Prover.ProveDynamic: proof generation and reading the proving key come after the witness and are not modelled.
- The wallet's and pkg's circuits are the same text apart from logging, so one compiler models both; their schema copies likewise.
- The reduced copies of the request service in blockchain-client and the wallet: only the API service is modelled.
- OpenID Connect login, sessions, cookies and the credential store: mostly library calls or single map operations.
- Connection-string masking, RabbitMQ back-off and log audit queries: small and independent.
