# Verification of the Pydrofoil virtual platform and its vendored kernels

This project models, in Dafny, the parts of the repository whose correctness is hard to see from the code,
and proves what they promise. `dafny verify dfyconfig.toml` checks everything.

Where the source changes state step by step there is a class (or a method with loops) in the same form,
and a state machine over values. A method that a thread executes without interruption takes one step of the
state machine; whole calls and thread loops are put together from those, with what the other threads do in
between as a parameter, and promise what holds when they return. The theorems are about all runs.

| Component | Files |
|---|---|
| Shared: a value that may be missing | `Wrappers` |
| RSA example: extended Euclid, modular powers, keys, Miller-Rabin | `IntMath`, `NumberTheory`, `Rsa`, `MillerRabin`, `MillerRabinBound` |
| Time-ordered list and payload event queue | `TimeOrderedList`, `PayloadQueue`, `PayloadRuns`, `PayloadOrigins`, `Peq` |
| simple_bus: arbiter, locks, bursts, wait states, memory | `SimpleBus*` |
| TLM adapters of the simple target socket | `NonBlockingToBlocking`, `BlockingToNonBlocking`, `TargetSocket` |
| Handshake of simulator thread and Python worker | `Handshake`, `HandshakeClasses` |
| FIR filter: behaviour against controller and datapath | `Fir`, `FirClasses` |
| Checksums | `CrcTables`, `Polynomials`, `Registers`, `Crc7`, `Crc16`, `Crc32` |
| Strings, wide multiplication, saturation | `Strings`, `MulDiv`, `Saturate` |
| Block list of the test program | `SparseMemory` |

Modelling conventions:

- C++ `%` and `/` truncate; `IntMath` defines them. The 250-bit integers of the RSA example are a subset type
  with its magnitude bound, so every intermediate value is shown to fit. Unsigned 32-bit and 64-bit
  arithmetic wraps explicitly; the checksums use bit-vectors; the FIR accumulator and products go through
  19 and 17 bits.
- Random draws, the target's answers, the initiator's calls, callbacks, exceptions and the interleaving of
  threads and clock edges are parameters or steps, so the theorems hold for all of them.
- `sc_event` follows section 5.10 of IEEE Std 1666-2011: an immediate notification cancels a pending one, a
  delta notification wins over a timed one, the earlier of two timed ones wins. Processes run until they
  wait. The TLM phases follow the base protocol, section 15.2 of that standard.
- A condition variable wakes only a thread that sleeps on it, and only when it is notified; the mutex is held
  from the test of the condition to the sleep. Where the push is made under the mutex (`task_cv`) nothing is
  lost, and the wait is one step.
- Fields called history in the comments (logs, counters of requests) exist only to state properties. What they
  say is tied to the calls of a run: the requests, submissions, notifications, tasks and samples in them are
  those of its steps.

Results where the code does not do what one might expect are stated exactly, with the condition:

- `rsa()` does not check that its primes differ. Deciphering undoes ciphering for every message if and only
  if they do (`Rsa.RoundTripExactly`).
- An initiator that ends a response from inside `nb_transport_bw` blocks the response path for good. The
  response flag is right after a run if and only if this has not happened
  (`NonBlockingToBlocking.FlagSaysUnansweredExactly`, `EndInsideIsReached`).
- Requests exclude each other in the blocking-to-non-blocking adapter if and only if the thread never goes on
  from its wait while the request it has waited for is still open. That takes a wait begun with an earlier end
  of request still notified, and such a notification is left over only by a response that comes when the end
  of its request has already woken the thread, or by a request ended inside `nb_transport_fw` and then answered
  otherwise (`BlockingToNonBlocking.RequestsExcludedExactly`, `LeftoverExactly`, `SpuriousIsReached`,
  `TwoOpenIsReached`).
- A target that begins the response from inside `nb_transport_fw` without ending the request leaves the thread
  of that adapter in a wait for an end that is neither notified nor owed, if none is notified already, and
  nothing else does; with no other request open the thread then waits for ever
  (`BlockingToNonBlocking.WaitsExactly`, `InVainForEver`, `InVainIsReached`).
- The payload event queue loses no wake-up if and only if no delta or timed loop leaves behind an immediate
  notification that a callback has made and not cancelled; a callback of the immediate loop may make one
  (`PayloadRuns.NoLostWakeUpExactly`, `LostFromDeltaLoop`, `LostFromTimedLoop`). It loses no payload if and only
  if no callback of a timed loop calls `cancel_all` and then notifies with a positive delay
  (`PayloadRuns.NothingLostOrDoubled`, `LostAfterCancel`).
- A burst at the very end of the address space never finishes, or finishes with another number of words than
  asked for, and so does a burst of length 0 (`SimpleBusRuns.LengthExactly`, `OtherLengthIsReached`).
- The two threads of the core come to a standstill if and only if the SystemC side makes a call other than
  `cycle_count` from inside a memory access, or the worker ends `simulate` and notifies, without the mutex,
  after the waiting side has found its condition false and before it sleeps
  (`Handshake.DeadlockExactly`, `CallInsideAccessDeadlocks`, `AccessIsReached`, `OversleepingIsReached`).
- The cycle count goes through an `int` (`Handshake.CycleCountExact`).
- A pulse of reset lets the FIR filters start afresh, in step with each other, if and only if it does not meet
  the datapath in its output state with anything but zero to shift in (`Fir.ResetRestarts`).
- `crc7` needs an even start value (`Crc7.RemainderExactly`), and does not see a byte changed by 0x89
  (`Crc7.DetectsByte`).
- `escape` repeats the backslash for repeated characters (`Strings.UnescapeEscapeExactly`).

## Model

| member | source | states |
|---|---|---|
| Rsa.RoundTripExactly | sysc_vp/deps/systemc/examples/sysc/rsa/rsa.cpp:455-519 | for primes p and q: deciphering undoes ciphering for every message below p*q if and only if p and q differ |
| Rsa.RoundTrip | sysc_vp/deps/systemc/examples/sysc/rsa/rsa.cpp:418-432 | for distinct primes, n = p*q and e*d congruent to 1 modulo (p-1)*(q-1), every message comes back |
| Rsa.SquareModulusLosesP | sysc_vp/deps/systemc/examples/sysc/rsa/rsa.cpp:455-477 | with p = q the message p is never recovered, whatever the keys |
| Rsa.RsaRun | sysc_vp/deps/systemc/examples/sysc/rsa/rsa.cpp:455-529 | the key set-up and one cipher and decipher for primes that are not 2, as the test leaves them: e is at least 3 and d positive, the assertion on the message fails exactly when n divides the draw, otherwise the message is recovered when the primes differ, and the keys work for every message if and only if they do |
| Rsa.ModularExp | sysc_vp/deps/systemc/examples/sysc/rsa/rsa.cpp:221-236 | square-and-multiply over the bits of the exponent computes the power modulo n, for every base; a negative exponent counts as its unsigned bits |
| Rsa.SquareAndMultiply | sysc_vp/deps/systemc/examples/sysc/rsa/rsa.cpp:221-236 | one round of the loop extends the processed exponent by one bit |
| Rsa.Cipher | sysc_vp/deps/systemc/examples/sysc/rsa/rsa.cpp:418-424 | the message to the power e modulo n |
| Rsa.Decipher | sysc_vp/deps/systemc/examples/sysc/rsa/rsa.cpp:426-432 | the cipher text to the power d modulo n |
| Rsa.Euclid | sysc_vp/deps/systemc/examples/sysc/rsa/rsa.cpp:203-218 | for all arguments the recursion ends with d the greatest common divisor, d = a*x + b*y, and coefficients smaller than the other argument, 1 aside, so that they fit |
| Rsa.Inverse | sysc_vp/deps/systemc/examples/sysc/rsa/rsa.cpp:239-252 | for coprime a and n the result lies in 0..n-1, is the inverse, and is the only such number |
| Rsa.FindRelPrime | sysc_vp/deps/systemc/examples/sysc/rsa/rsa.cpp:254-273 | the least odd number from 3 on that is coprime to n; the search's assertion fails only for n = 3 |
| Rsa.RetPos | sysc_vp/deps/systemc/examples/sysc/rsa/rsa.cpp:178-187 | the result is congruent to x modulo n, and lies in 0..n-1 if and only if x is at least -n and less than n |
| Rsa.PrimeBoundIsPower | sysc_vp/deps/systemc/examples/sysc/rsa/rsa.cpp:382-392 | primes of half the bits have a product that fits |
| Rsa.BoundIsPower | sysc_vp/deps/systemc/examples/sysc/rsa/rsa.cpp:73-77 | the magnitude bound of the 250-bit integers is a power of two |
| NumberTheory.BezoutIdentity | sysc_vp/deps/systemc/examples/sysc/rsa/rsa.cpp:203-218 | the back-substituted coefficients express the greatest common divisor |
| NumberTheory.BezoutBound | sysc_vp/deps/systemc/examples/sysc/rsa/rsa.cpp:203-218 | neither coefficient exceeds the other argument |
| NumberTheory.FermatExponent | sysc_vp/deps/systemc/examples/sysc/rsa/rsa.cpp:418-432 | a number to the power 1 + j(p-1) is itself modulo p, multiples of p included |
| NumberTheory.CongBothPrimes | sysc_vp/deps/systemc/examples/sysc/rsa/rsa.cpp:418-432 | congruence modulo two distinct primes is congruence modulo their product |
| NumberTheory.SquareRootsOfOne | sysc_vp/deps/systemc/examples/sysc/rsa/rsa.cpp:277-318 | modulo a prime only 1 and -1 are square roots of 1 |
| MillerRabin.Witness | sysc_vp/deps/systemc/examples/sysc/rsa/rsa.cpp:277-318 | the loop reports a exactly when a squaring meets a nontrivial root of 1 or a^(n-1) is not 1 |
| MillerRabin.PrimeNeverAccused | sysc_vp/deps/systemc/examples/sysc/rsa/rsa.cpp:277-318 | no base between 1 and n-1 is a witness against a prime |
| MillerRabin.SharedFactorAccuses | sysc_vp/deps/systemc/examples/sysc/rsa/rsa.cpp:277-318 | every base between 1 and n that shares a factor with n is a witness |
| MillerRabin.HalfPowerAccuses | sysc_vp/deps/systemc/examples/sysc/rsa/rsa.cpp:277-318 | so is every base whose power to (n-1)/2 is neither 1 nor n-1, even where its power to n-1 is 1 |
| MillerRabin.DivTest | sysc_vp/deps/systemc/examples/sysc/rsa/rsa.cpp:320-344 | true exactly when no number of the trial range divides n |
| MillerRabin.TrialDivisionExact | sysc_vp/deps/systemc/examples/sysc/rsa/rsa.cpp:320-344 | below 1025 squared trial division alone decides the primality of odd numbers |
| MillerRabin.Base | sysc_vp/deps/systemc/examples/sysc/rsa/rsa.cpp:347-378 | a draw is turned into a base between 1 and n-1 |
| MillerRabin.MillerRabin | sysc_vp/deps/systemc/examples/sysc/rsa/rsa.cpp:347-378 | true exactly when trial division passes and none of the bases drawn modulo n - 1, plus 1, is a witness |
| MillerRabin.PrimeAccepted | sysc_vp/deps/systemc/examples/sysc/rsa/rsa.cpp:347-378 | every odd prime is accepted, whatever is drawn |
| MillerRabin.DivisorRejects | sysc_vp/deps/systemc/examples/sysc/rsa/rsa.cpp:347-378 | a composite number is rejected as soon as one draw is a proper divisor less 1 |
| MillerRabin.PrimeIffAlwaysAccepted | sysc_vp/deps/systemc/examples/sysc/rsa/rsa.cpp:347-378 | a number above 2 is prime if and only if it is accepted for every sequence of draws |
| MillerRabin.AcceptedExact | sysc_vp/deps/systemc/examples/sysc/rsa/rsa.cpp:347-378 | below 1025 squared the accepted odd numbers are exactly the odd primes, whatever is drawn |
| MillerRabinBound.HalfOfBases | sysc_vp/deps/systemc/examples/sysc/rsa/rsa.cpp:340-347 | at least half of the bases from 1 to n-1 are witnesses to an odd composite n, Carmichael numbers included |
| MillerRabinBound.RoundsErr | sysc_vp/deps/systemc/examples/sysc/rsa/rsa.cpp:340-347 | over k rounds at most one in 2^k of the sequences of bases consists of bases that are no witnesses |
| MillerRabinBound.CarmichaelHalf | sysc_vp/deps/systemc/examples/sysc/rsa/rsa.cpp:277-318 | the same where no unit has a power other than 1 to n-1: the nontrivial roots that the loop looks for decide |
| MillerRabinBound.FermatHalf | sysc_vp/deps/systemc/examples/sysc/rsa/rsa.cpp:277-318 | the same where some unit has |
| TimeOrderedList.StableInsertSorted | sysc_vp/deps/systemc/src/tlm_utils/peq_with_cb_and_phase.h:80-107 | insertion keeps the list sorted by time |
| TimeOrderedList.StableInsertFifo | sysc_vp/deps/systemc/src/tlm_utils/peq_with_cb_and_phase.h:80-107 | an inserted entry goes behind all entries of its own time and reorders no other time |
| TimeOrderedList.SpliceShape | sysc_vp/deps/systemc/src/tlm_utils/peq_with_cb_and_phase.h:80-107 | linking a recycled element in keeps list and free list disjoint, acyclic and complete |
| TimeOrderedList.PopShape | sysc_vp/deps/systemc/src/tlm_utils/peq_with_cb_and_phase.h:109-117 | moving the first element to the free list keeps list and free list disjoint, acyclic and complete |
| TimeOrderedList.GrowShape | sysc_vp/deps/systemc/src/tlm_utils/peq_with_cb_and_phase.h:81-84 | an allocated element enters an empty free list |
| TimeOrderedList.List.constructor | sysc_vp/deps/systemc/src/tlm_utils/peq_with_cb_and_phase.h:56-62 | an empty list that ends in its sentinel |
| TimeOrderedList.List.Insert | sysc_vp/deps/systemc/src/tlm_utils/peq_with_cb_and_phase.h:80-107 | the contents become the stable sorted insertion, the size is their length, and every allocated element stays on one of the two lists |
| TimeOrderedList.List.Search | sysc_vp/deps/systemc/src/tlm_utils/peq_with_cb_and_phase.h:92-97 | the walk ends between the last entry not later than t and the first later one |
| TimeOrderedList.List.Grow | sysc_vp/deps/systemc/src/tlm_utils/peq_with_cb_and_phase.h:81-84 | a new element enters the empty free list |
| TimeOrderedList.List.LinkBefore | sysc_vp/deps/systemc/src/tlm_utils/peq_with_cb_and_phase.h:86-106 | the first free element is filled and linked in at a position |
| TimeOrderedList.List.DeleteTop | sysc_vp/deps/systemc/src/tlm_utils/peq_with_cb_and_phase.h:109-117 | the first entry leaves and its element is recycled; an empty list stays as it is |
| TimeOrderedList.List.Reset | sysc_vp/deps/systemc/src/tlm_utils/peq_with_cb_and_phase.h:74-78 | the list is empty and no element is lost |
| TimeOrderedList.List.Top | sysc_vp/deps/systemc/src/tlm_utils/peq_with_cb_and_phase.h:124-127 | the payload of the first entry |
| TimeOrderedList.List.TopTime | sysc_vp/deps/systemc/src/tlm_utils/peq_with_cb_and_phase.h:128-131 | the time of the first entry |
| TimeOrderedList.List.GetSize | sysc_vp/deps/systemc/src/tlm_utils/peq_with_cb_and_phase.h:119-122 | the number of entries |
| PayloadRuns.DeliveredExactlyOnce | sysc_vp/deps/systemc/src/tlm_utils/peq_with_cb_and_phase.h:223-286 | over every run that loses no wake-up, with callbacks that notify again in any way and with cancellations from outside and inside: each timed payload is delivered once, at its own time, in order among equals, except what was lost, which is nothing in a careful run; each delta payload in the next delta; and nothing early |
| PayloadRuns.NoLostWakeUpExactly | sysc_vp/deps/systemc/src/tlm_utils/peq_with_cb_and_phase.h:223-286 | a run loses no wake-up in any of its states if and only if no delta or timed loop in it leaves behind an immediate notification that a callback has made and not cancelled |
| PayloadRuns.NothingLostOrDoubled | sysc_vp/deps/systemc/src/tlm_utils/peq_with_cb_and_phase.h:223-286 | over every run, with callbacks that notify and cancel in any way: every notification ever made is delivered, queued, cancelled or lost, in exactly one of these ways, and nothing is delivered with a time or delta count in the future; none is lost if and only if no callback of a timed loop cancels and then notifies with a positive delay |
| PayloadOrigins.DeliveredAfterDelay | sysc_vp/deps/systemc/src/tlm_utils/peq_with_cb_and_phase.h:232-235 | over every run that loses nothing, told from its moves: a payload notified with a delay, from outside or by a callback, is queued for the time of the call plus the delay until then, and has been delivered at that time afterwards, unless everything was cancelled |
| PayloadOrigins.DeliveredNextDelta | sysc_vp/deps/systemc/src/tlm_utils/peq_with_cb_and_phase.h:223-231 | a payload notified without a delay is delivered at the next delta count |
| PayloadOrigins.DeliveredAtOnce | sysc_vp/deps/systemc/src/tlm_utils/peq_with_cb_and_phase.h:238-241 | a payload notified immediately is delivered in the same evaluation phase, behind those notified before it |
| PayloadOrigins.AllAccountedFor | sysc_vp/deps/systemc/src/tlm_utils/peq_with_cb_and_phase.h:223-286 | what is delivered, queued, cancelled or lost adds up to what the moves of the run and the callbacks made in it have notified, each once |
| PayloadOrigins.CancelledForGood | sysc_vp/deps/systemc/src/tlm_utils/peq_with_cb_and_phase.h:244-250 | a cancellation leaves nothing queued, and what is delivered after it was notified after it |
| PayloadOrigins.MoveMakes | sysc_vp/deps/systemc/src/tlm_utils/peq_with_cb_and_phase.h:223-286 | a move notifies exactly its payload, a call of fec exactly what the callbacks notify that it makes, one for each delivery; and what was asked for stays so unless it cancels |
| PayloadOrigins.ClockExactly | sysc_vp/deps/systemc/src/sysc/kernel/sc_simcontext.cpp:562-582 | time and delta count move as the kernel says, and fec becomes runnable by an immediate notification from outside, at the end of a delta cycle or when the time of its event has come, and not otherwise |
| PayloadRuns.MoveLoses | sysc_vp/deps/systemc/src/tlm_utils/peq_with_cb_and_phase.h:276-281 | a step loses a payload if and only if it is a fec call in which a callback of the timed loop cancels and then notifies with a positive delay |
| PayloadQueue.MoveKeeps | sysc_vp/deps/systemc/src/tlm_utils/peq_with_cb_and_phase.h:223-286 | every notification, fec call, cancellation, delta end and time step keeps the accounting, and keeps the queue awake unless it is a fec call whose delta and timed loops leave an immediate notification behind |
| PayloadRuns.RunSafe | sysc_vp/deps/systemc/src/tlm_utils/peq_with_cb_and_phase.h:223-286 | in such runs fec is runnable or its event pending no later than the earliest payload, in every state |
| PayloadRuns.LostFromDeltaLoop | sysc_vp/deps/systemc/src/tlm_utils/peq_with_cb_and_phase.h:238-241 | a run in which a callback of the delta loop notifies immediately and its payload stays behind |
| PayloadRuns.LostFromTimedLoop | sysc_vp/deps/systemc/src/tlm_utils/peq_with_cb_and_phase.h:276-281 | a run in which a callback of the timed loop does, and a delta payload notified by somebody else stays behind as well |
| PayloadRuns.LostAfterCancel | sysc_vp/deps/systemc/src/tlm_utils/peq_with_cb_and_phase.h:276-281 | a run in which a callback of the timed loop cancels and then notifies for a later time: what it has notified is made, and neither delivered, queued nor cancelled |
| PayloadRuns.SleepsOn | sysc_vp/deps/systemc/src/tlm_utils/peq_with_cb_and_phase.h:254-286 | after such a loss nothing is delivered until the next notification |
| PayloadQueue.FecKeeps | sysc_vp/deps/systemc/src/tlm_utils/peq_with_cb_and_phase.h:254-286 | one call of fec accounts for every payload, with callbacks that notify and cancel in any way, and leaves the queue awake if and only if its delta and timed loops leave no immediate notification behind; callbacks of the immediate loop may make them |
| PayloadQueue.FecLoops | sysc_vp/deps/systemc/src/tlm_utils/peq_with_cb_and_phase.h:254-286 | one call of fec loses a payload if and only if a callback of its timed loop cancels and then notifies with a positive delay |
| PayloadQueue.EndDeltaKeeps | sysc_vp/deps/systemc/src/sysc/kernel/sc_simcontext.cpp:562-582 | a pending delta notification makes fec runnable at the end of the delta cycle; the invariant survives the new delta count |
| Peq.DeltaList.Insert | sysc_vp/deps/systemc/src/tlm_utils/peq_with_cb_and_phase.h:167-172 | appends, growing the array when it is full |
| Peq.DeltaList.Get | sysc_vp/deps/systemc/src/tlm_utils/peq_with_cb_and_phase.h:174-176 | takes the next entry in insertion order |
| Peq.DeltaList.Next | sysc_vp/deps/systemc/src/tlm_utils/peq_with_cb_and_phase.h:178-180 | true while entries are left |
| Peq.DeltaList.Reset | sysc_vp/deps/systemc/src/tlm_utils/peq_with_cb_and_phase.h:182-185 | empties the list |
| Peq.InsertBehindHead | sysc_vp/deps/systemc/src/tlm_utils/peq_with_cb_and_phase.h:276-281 | a notification made while the head is being served goes behind it and the rest of the list is as if the head had gone |
| Peq.TimedRound | sysc_vp/deps/systemc/src/tlm_utils/peq_with_cb_and_phase.h:276-281 | one round of the timed loop leaves what the rest of the loop makes of it unchanged, and one entry less due |
| Peq.PeqWithCbAndPhase.Notify | sysc_vp/deps/systemc/src/tlm_utils/peq_with_cb_and_phase.h:223-236 | a zero delay puts the payload into the list of the next parity, any other into the time-ordered list; the event is notified by its override rules |
| Peq.PeqWithCbAndPhase.NotifyImmediate | sysc_vp/deps/systemc/src/tlm_utils/peq_with_cb_and_phase.h:238-241 | the payload is queued, what was pending cancelled, and fec made runnable unless it is fec that notifies |
| Peq.PeqWithCbAndPhase.CancelAll | sysc_vp/deps/systemc/src/tlm_utils/peq_with_cb_and_phase.h:244-250 | all lists are emptied and the event cancelled |
| Peq.PeqWithCbAndPhase.OwnerCallback | sysc_vp/deps/systemc/src/tlm_utils/peq_with_cb_and_phase.h:254-286 | the callback's own calls in order: timed and immediate notifications, and cancel_all |
| Peq.PeqWithCbAndPhase.CallTimed | sysc_vp/deps/systemc/src/tlm_utils/peq_with_cb_and_phase.h:276-281 | the callback comes first; what is unlinked after it is the payload it was called with, or, if it has cancelled, whatever is first in the list by then |
| Peq.PeqWithCbAndPhase.YieldImmediate | sysc_vp/deps/systemc/src/tlm_utils/peq_with_cb_and_phase.h:255-257 | the immediate payloads are delivered, those that callbacks add included |
| Peq.PeqWithCbAndPhase.ServeTimed | sysc_vp/deps/systemc/src/tlm_utils/peq_with_cb_and_phase.h:270-284 | what is due is delivered and the event re-armed for the next time |
| Peq.PeqWithCbAndPhase.YieldDelta | sysc_vp/deps/systemc/src/tlm_utils/peq_with_cb_and_phase.h:260-267 | one delta list is drained, callbacks included |
| Peq.PeqWithCbAndPhase.YieldTimed | sysc_vp/deps/systemc/src/tlm_utils/peq_with_cb_and_phase.h:272-281 | everything due now is delivered |
| Peq.PeqWithCbAndPhase.ServeDelta | sysc_vp/deps/systemc/src/tlm_utils/peq_with_cb_and_phase.h:259-269 | drains the list of this parity and re-arms the event for the other |
| Peq.PeqWithCbAndPhase.FecRun | sysc_vp/deps/systemc/src/tlm_utils/peq_with_cb_and_phase.h:254-286 | the whole method leads to the state the queue's state machine prescribes |
| SimpleBusRuns.RunKeeps | sysc_vp/deps/systemc/examples/sysc/simple_bus/simple_bus.cpp:101-118 | every reachable state, for any interleaving of masters and clock edges, satisfies all invariants of locks, priorities, timing, bursts and memory |
| SimpleBusRuns.FinishedBurst | sysc_vp/deps/systemc/examples/sysc/simple_bus/simple_bus.cpp:285-347 | a request that reached status OK has moved each word of its burst once, in ascending order, with address and data position in step |
| SimpleBusRuns.LengthExactly | sysc_vp/deps/systemc/examples/sysc/simple_bus/simple_bus.cpp:213-271 | a finished burst has moved the number of words asked for if and only if it stays below the end of the address space or starts at its last word |
| SimpleBusRuns.OtherLengthIsReached | sysc_vp/deps/systemc/examples/sysc/simple_bus/simple_bus.cpp:213-271 | a run in which a burst of length 0 finishes after moving one word |
| SimpleBusRuns.LockedBurstUnbroken | sysc_vp/deps/systemc/examples/sysc/simple_bus/simple_bus.cpp:101-118 | a request that rule 3 chooses with its lock set is served until its word has been moved, whatever is submitted and however long its slave takes, and if it has words left it is chosen at the next arbitration |
| SimpleBusRuns.LockIsReached | sysc_vp/deps/systemc/examples/sysc/simple_bus/simple_bus.cpp:402-409 | a run in which a better priority waits after the first word of a burst of two: the burst goes on if it is locked, and is broken into if not |
| SimpleBusOrigins.WordsOfSubmission | sysc_vp/deps/systemc/examples/sysc/simple_bus/simple_bus.cpp:213-347 | in every run the words moved for the n-th submission are those it asked for: its direction, its address and its place in the masters' memory upwards, each once and in order |
| SimpleBusOrigins.FinishedSubmission | sysc_vp/deps/systemc/examples/sysc/simple_bus/simple_bus.cpp:213-347 | every submission has its form, until the next of the same priority; once finished it has moved exactly the words asked for if and only if the burst stays below the end of the address space, or starts at its last word |
| SimpleBusOrigins.NoOtherWords | sysc_vp/deps/systemc/examples/sysc/simple_bus/simple_bus.cpp:285-347 | every other transfer is direct |
| SimpleBusOrigins.StepMovesOne | sysc_vp/deps/systemc/examples/sysc/simple_bus/simple_bus.cpp:285-347 | a step moves at most one word, the one it logs: a write from the masters' memory to the slaves, a read the other way, and nothing else changes in either |
| SimpleBusBursts.WordsExactly | sysc_vp/deps/systemc/examples/sysc/simple_bus/simple_bus.cpp:213-271 | the number of words until the address passes the end, against the length asked for, with 32-bit wrap-around |
| SimpleBusBursts.NextWord | sysc_vp/deps/systemc/examples/sysc/simple_bus/simple_bus.cpp:326-340 | one served word moves address, data and count on and finishes the request exactly at its last word |
| SimpleBusBursts.HandleWord | sysc_vp/deps/systemc/examples/sysc/simple_bus/simple_bus.cpp:309-340 | a ready slave moves exactly the next word of the request, which is logged with the request's number |
| SimpleBusBursts.MainActionRequests | sysc_vp/deps/systemc/examples/sysc/simple_bus/simple_bus.cpp:101-118 | a falling edge keeps every request in agreement with the log of transfers; errors are misaligned or unmapped addresses |
| SimpleBusRuns.FlatMemory | sysc_vp/deps/systemc/examples/sysc/simple_bus/simple_bus.cpp:349-359 | every read returned the value last written to its address before it, or zero, through whichever slave; the slaves hold the last values written |
| SimpleBusMemory.MoveMemory | sysc_vp/deps/systemc/examples/sysc/simple_bus/simple_bus_fast_mem.h:99-111 | one transfer moves one word between the slave and the masters' memory and disturbs no other word of either |
| SimpleBusMemory.MoveExactly | sysc_vp/deps/systemc/examples/sysc/simple_bus/simple_bus.cpp:309-314 | one word moves in the direction asked for and no other word changes on either side |
| SimpleBusMemory.DirectExactly | sysc_vp/deps/systemc/examples/sysc/simple_bus/simple_bus.cpp:124-144 | a direct access moves one word in the direction asked for, or is refused and changes nothing |
| SimpleBusRuns.WaitsExactly | sysc_vp/deps/systemc/examples/sysc/simple_bus/simple_bus_slow_mem.h:113-162 | every transfer of a slow slave completes exactly nr_wait_states falling edges after it starts, with at least one wait state; a fast slave never waits |
| SimpleBusTiming.WaitingIsAtomic | sysc_vp/deps/systemc/examples/sysc/simple_bus/simple_bus.cpp:341-343 | while a slave makes the bus wait only the request being served is touched, and at most its own transfer happens |
| SimpleBusTiming.MainActionTiming | sysc_vp/deps/systemc/examples/sysc/simple_bus/simple_bus_slow_mem.h:130-162 | between accesses every counter is negative on a falling edge; during one it is in step with the edges seen |
| SimpleBusTiming.RisingEdgeTiming | sysc_vp/deps/systemc/examples/sysc/simple_bus/simple_bus_slow_mem.h:113-116 | the counters run down by one per rising edge and the invariant is kept |
| SimpleBusLocks.ArbiterAssertionHolds | sysc_vp/deps/systemc/examples/sysc/simple_bus/simple_bus_arbiter.cpp:89-95 | pending requests have pairwise distinct priorities, so the assertion never fires |
| SimpleBusLocks.MainActionLocks | sysc_vp/deps/systemc/examples/sysc/simple_bus/simple_bus.cpp:101-118 | at every arbitration at most the request served last is waiting with its lock set |
| SimpleBusLocks.SubmitLocks | sysc_vp/deps/systemc/examples/sysc/simple_bus/simple_bus.cpp:361-375 | a new request keeps the priorities distinct and the locks in order |
| SimpleBusLocks.ArbiterRules | sysc_vp/deps/systemc/examples/sysc/simple_bus/simple_bus_arbiter.cpp:64-103 | no pending request has a better claim than the one served: locked burst, then granted lock, then least priority number; only the last rule grants the lock |
| SimpleBusLocks.LockedFirst | sysc_vp/deps/systemc/examples/sysc/simple_bus/simple_bus_arbiter.cpp:64-77 | rule 1: a locked burst is served before any other request and its lock stays as it is |
| SimpleBusLocks.LockedBurstServedNext | sysc_vp/deps/systemc/examples/sysc/simple_bus/simple_bus_arbiter.cpp:64-77 | a burst granted with its lock gets the next transfer too |
| SimpleBusLocks.RuleThreeLocks | sysc_vp/deps/systemc/examples/sysc/simple_bus/simple_bus.cpp:377-409 | after one falling edge the request that rule 3 has chosen with its lock set is being served with the lock granted, waits for its next word with the lock set, or has ended with the lock set |
| SimpleBusLocks.LockedAgainServedNext | sysc_vp/deps/systemc/examples/sysc/simple_bus/simple_bus.cpp:170-172 | a master whose request has ended with its lock set, and that locks the next one, is served next unless another lock is granted |
| SimpleBusLocks.LockEndsAfterRuleOne | sysc_vp/deps/systemc/examples/sysc/simple_bus/simple_bus.cpp:402-409 | after that second transfer the lock is gone: rule 1 does not renew it |
| SimpleBusLocks.NextChooses | sysc_vp/deps/systemc/examples/sysc/simple_bus/simple_bus.cpp:377-400 | arbitration chooses a pending request and changes at most its lock |
| SimpleBusLocks.HandleChanges | sysc_vp/deps/systemc/examples/sysc/simple_bus/simple_bus.cpp:285-347 | serving changes only the current request, and neither its priority nor its lock |
| SimpleBus.GetSlave | sysc_vp/deps/systemc/examples/sysc/simple_bus/simple_bus.cpp:349-359 | the first slave that covers the address, or none |
| SimpleBus.SlaveUnambiguous | sysc_vp/deps/systemc/examples/sysc/simple_bus/simple_bus.cpp:77-95 | after the overlap check the slave found is the only one |
| SimpleBus.FindRequest | sysc_vp/deps/systemc/examples/sysc/simple_bus/simple_bus.cpp:361-375 | the first request form with the priority, or none |
| SimpleBus.PendingFrom | sysc_vp/deps/systemc/examples/sysc/simple_bus/simple_bus.cpp:383-396 | exactly the pending requests, in order |
| SimpleBus.Best | sysc_vp/deps/systemc/examples/sysc/simple_bus/simple_bus_arbiter.cpp:89-95 | a request of least priority number |
| SimpleBus.Choose | sysc_vp/deps/systemc/examples/sysc/simple_bus/simple_bus_arbiter.cpp:64-103 | the choice is one of the requests offered |
| SimpleBus.FirstLocked | sysc_vp/deps/systemc/examples/sysc/simple_bus/simple_bus_arbiter.cpp:64-77 | the first request that rule 1 applies to, or none |
| SimpleBus.FirstGranted | sysc_vp/deps/systemc/examples/sysc/simple_bus/simple_bus_arbiter.cpp:79-87 | the first request that rule 2 applies to, or none |
| SimpleBus.WaitLoops | sysc_vp/deps/systemc/examples/sysc/simple_bus/simple_bus_slow_mem.h:113-116 | every slave's counter runs down on a rising edge |
| SimpleBus.ClearLocks | sysc_vp/deps/systemc/examples/sysc/simple_bus/simple_bus.cpp:402-409 | every lock is downgraded by one step |
| SimpleBusClasses.Memory.constructor | sysc_vp/deps/systemc/examples/sysc/simple_bus/simple_bus_slow_mem.h:56-79 | a cleared memory that accepts a call |
| SimpleBusClasses.Memory.Read | sysc_vp/deps/systemc/examples/sysc/simple_bus/simple_bus_slow_mem.h:130-145 | accepts and waits, waits on, or returns the word |
| SimpleBusClasses.Memory.Write | sysc_vp/deps/systemc/examples/sysc/simple_bus/simple_bus_slow_mem.h:147-162 | accepts and waits, waits on, or stores the word |
| SimpleBusClasses.BusModule.EndOfElaboration | sysc_vp/deps/systemc/examples/sysc/simple_bus/simple_bus.cpp:77-95 | true exactly when no two slaves overlap |
| SimpleBusClasses.BusModule.FindSlave | sysc_vp/deps/systemc/examples/sysc/simple_bus/simple_bus.cpp:349-359 | the loop finds the first covering slave |
| SimpleBusClasses.BusModule.GetRequest | sysc_vp/deps/systemc/examples/sysc/simple_bus/simple_bus.cpp:361-375 | the loop finds the form of a priority or adds one |
| SimpleBusClasses.BusModule.SubmitRequest | sysc_vp/deps/systemc/examples/sysc/simple_bus/simple_bus.cpp:150-271 | the form is filled in, with the lock set or granted |
| SimpleBusClasses.BusModule.Arbitrate | sysc_vp/deps/systemc/examples/sysc/simple_bus/simple_bus_arbiter.cpp:41-104 | the three rules in their order, and the promotion of the lock |
| SimpleBusClasses.BusModule.CollectPending | sysc_vp/deps/systemc/examples/sysc/simple_bus/simple_bus.cpp:383-396 | the vector of likely requests |
| SimpleBusClasses.BusModule.GetNextRequest | sysc_vp/deps/systemc/examples/sysc/simple_bus/simple_bus.cpp:377-400 | nothing pending, or the arbiter's choice |
| SimpleBusClasses.BusModule.AccessSlave | sysc_vp/deps/systemc/examples/sysc/simple_bus/simple_bus.cpp:308-314 | one call of a memory: it waits, or the word is moved and logged, and no other memory changes |
| SimpleBusClasses.BusModule.HandleRequest | sysc_vp/deps/systemc/examples/sysc/simple_bus/simple_bus.cpp:285-347 | all branches of the switch on the slave's answer, and the two errors |
| SimpleBusClasses.BusModule.ClearAllLocks | sysc_vp/deps/systemc/examples/sysc/simple_bus/simple_bus.cpp:402-409 | the loop downgrades every lock once |
| SimpleBusClasses.BusModule.Fall | sysc_vp/deps/systemc/examples/sysc/simple_bus/simple_bus.cpp:101-118 | the falling edge as a whole |
| SimpleBusClasses.BusModule.DirectAccess | sysc_vp/deps/systemc/examples/sysc/simple_bus/simple_bus.cpp:124-144 | a direct read leaves the word of the slave in the masters' memory and the slaves as they are, a direct write the other way round; refused for a misaligned address or one without a slave |
| SimpleBusClasses.BusModule.Rise | sysc_vp/deps/systemc/examples/sysc/simple_bus/simple_bus_slow_mem.h:113-116 | on a rising edge every memory counts its wait states down, and nothing else changes |
| SimpleBusClasses.BusModule.constructor | sysc_vp/deps/systemc/examples/sysc/simple_bus/simple_bus.cpp:77-95 | a bus with fresh memories starts in an initial state if and only if no two of them overlap |
| NonBlockingToBlocking.EachRequestOnce | sysc_vp/deps/systemc/src/tlm_utils/simple_target_socket.h:257-298 | in every run the calls for the n-th BEGIN_REQ are a beginning of: that call, one b_transport with its payload, one BEGIN_RESP with it; and until its response a process holds it |
| NonBlockingToBlocking.RequestsArePayloads | sysc_vp/deps/systemc/src/tlm_utils/simple_target_socket.h:257-298 | the requests are the BEGIN_REQ calls of the run with their payloads, in order |
| NonBlockingToBlocking.NothingElse | sysc_vp/deps/systemc/src/tlm_utils/simple_target_socket.h:419-448 | nothing is called for anything else |
| NonBlockingToBlocking.HandlesNotShared | sysc_vp/deps/systemc/src/tlm_utils/simple_target_socket.h:373-416 | no two live requests share a process handle |
| NonBlockingToBlocking.ResponsesExcluded | sysc_vp/deps/systemc/src/tlm_utils/simple_target_socket.h:428-443 | in call order at most one BEGIN_RESP is unanswered, and no process waits for the end of a response without being woken |
| NonBlockingToBlocking.FlagSaysUnansweredExactly | sysc_vp/deps/systemc/src/tlm_utils/simple_target_socket.h:438-443 | after any run that does not stop inside nb_transport_bw, the flag says whether a response is unanswered if and only if the initiator has never ended one from inside that call |
| NonBlockingToBlocking.EndInsideSticks | sysc_vp/deps/systemc/src/tlm_utils/simple_target_socket.h:288-292 | an END_RESP from inside nb_transport_bw leaves the flag set with nothing to answer, however the run goes on |
| NonBlockingToBlocking.EndInsideIsReached | sysc_vp/deps/systemc/src/tlm_utils/simple_target_socket.h:288-292 | a run of one request that ends like that |
| NonBlockingToBlocking.StuckForever | sysc_vp/deps/systemc/src/tlm_utils/simple_target_socket.h:432-443 | from then on no response is ever sent |
| NonBlockingToBlocking.StepKeeps | sysc_vp/deps/systemc/src/tlm_utils/simple_target_socket.h:257-448 | every step keeps the invariant over handles, requests, responses and wake-ups |
| NonBlockingToBlocking.BeginKeeps | sysc_vp/deps/systemc/src/tlm_utils/simple_target_socket.h:269-282 | a new request gets a process that serves no other |
| NonBlockingToBlocking.FirstSuspended | sysc_vp/deps/systemc/src/tlm_utils/simple_target_socket.h:393-406 | the first suspended process, or none |
| TargetSocket.BlockingTarget.GetHandle | sysc_vp/deps/systemc/src/tlm_utils/simple_target_socket.h:393-406 | the loop reuses the first suspended process |
| TargetSocket.BlockingTarget.NbTransportFw | sysc_vp/deps/systemc/src/tlm_utils/simple_target_socket.h:257-298 | BEGIN_REQ puts its payload into the hands of a process and notifies it; END_RESP and every other phase, with status and error |
| TargetSocket.BlockingTarget.Nb2bThread | sysc_vp/deps/systemc/src/tlm_utils/simple_target_socket.h:419-448 | a turn of the thread for one request, with everything others do in its waits: all the calls of the request have been made, each once, its process is suspended, and the flag is set exactly if the initiator has still to end the response |
| TargetSocket.BlockingTarget.AwaitFreePath | sysc_vp/deps/systemc/src/tlm_utils/simple_target_socket.h:432-435 | the loop waits until no response is in progress, with the request still in the hands of its process |
| BlockingToNonBlocking.NotifiedExactlyOnce | sysc_vp/deps/systemc/src/tlm_utils/simple_target_socket.h:300-341 | for every interleaving with a conforming target: each blocked call is in the map until the target is done, is notified once, whichever way it completes, and returns only then; no assertion fails |
| BlockingToNonBlocking.PendingKeys | sysc_vp/deps/systemc/src/tlm_utils/simple_target_socket.h:141-167 | the keys of m_pending_trans are exactly the payloads submitted and not completed |
| BlockingToNonBlocking.CallsAreSubmissions | sysc_vp/deps/systemc/src/tlm_utils/simple_target_socket.h:310-326 | the calls are the b_transport calls of the run with their payloads, each due its delay after its time |
| BlockingToNonBlocking.CompletionExactly | sysc_vp/deps/systemc/src/tlm_utils/simple_target_socket.h:450-512 | a step notifies exactly the calls it completes: a response on the return path, from inside nb_transport_fw as well, TLM_COMPLETED, and the end of the delay of a response; and it takes exactly the others it is about further |
| BlockingToNonBlocking.ResponseWaitsForDelay | sysc_vp/deps/systemc/src/tlm_utils/simple_target_socket.h:483-499 | a call answered with BEGIN_RESP stays in the map, not notified, until the annotated delay is over, whatever happens meanwhile, and is notified then |
| BlockingToNonBlocking.ThreadGoesTo | sysc_vp/deps/systemc/src/tlm_utils/simple_target_socket.h:461-503 | after each answer the thread goes on at once, waits for the end of the request, or for the delay |
| BlockingToNonBlocking.SentInOrder | sysc_vp/deps/systemc/src/tlm_utils/peq_with_get.h:57-74 | a transaction is sent no earlier than it is due, and before any that is due later |
| BlockingToNonBlocking.NeverOverslept | sysc_vp/deps/systemc/src/tlm_utils/peq_with_get.h:45-74 | while the thread waits with transactions queued, the queue's event is notified no later than the first is due |
| BlockingToNonBlocking.RequestsExcludedExactly | sysc_vp/deps/systemc/src/tlm_utils/simple_target_socket.h:474-480 | in all states of a run at most one request is open, and none when the thread is about to begin one, if and only if the thread never goes on from its wait while the request it has waited for is open; it never does if no wait begins with an earlier end of request still notified, and runs without stray ends of requests have no such wait |
| BlockingToNonBlocking.RequestsExcluded | sysc_vp/deps/systemc/src/tlm_utils/simple_target_socket.h:474-480 | without such waits at most one request is open at a time and none when the next is sent; without responses begun inside nb_transport_fw the thread waits only for an end that is notified or still owed |
| BlockingToNonBlocking.LeftoverExactly | sysc_vp/deps/systemc/src/tlm_utils/simple_target_socket.h:157-160 | an end of request is left over exactly after a stray one, until it fires or the thread waits again: a response that comes when the end of its request has already woken the thread, or an end from inside nb_transport_fw that is then answered otherwise |
| BlockingToNonBlocking.SpuriousEndsTheWait | sysc_vp/deps/systemc/src/tlm_utils/simple_target_socket.h:474-480 | a wait begun with one left over can end at once, with its request still open and the thread free to begin another |
| BlockingToNonBlocking.SpuriousIsReached | sysc_vp/deps/systemc/src/tlm_utils/simple_target_socket.h:141-167 | a run that leads to such a wait |
| BlockingToNonBlocking.TwoOpenIsReached | sysc_vp/deps/systemc/src/tlm_utils/simple_target_socket.h:474-480 | a run that leads on to two requests open at once |
| BlockingToNonBlocking.ExclusiveStep | sysc_vp/deps/systemc/src/tlm_utils/simple_target_socket.h:474-480 | a step keeps the open request free of a notified end if and only if it is not such a wait |
| BlockingToNonBlocking.WaitsExactly | sysc_vp/deps/systemc/src/tlm_utils/simple_target_socket.h:157-160 | in all states of a run the thread waits for an end of request that is notified or that the target still owes, if and only if the target never begins a response from inside nb_transport_fw without ending the request while no end is notified already |
| BlockingToNonBlocking.OrphanInVain | sysc_vp/deps/systemc/src/tlm_utils/simple_target_socket.h:157-160 | such a response, in a state where requests exclude each other, puts the thread into a wait in vain |
| BlockingToNonBlocking.InVainForEver | sysc_vp/deps/systemc/src/tlm_utils/simple_target_socket.h:474-480 | after such a response, with no other request open, the thread never runs again: no call that is queued or made later is ever sent |
| BlockingToNonBlocking.InVainIsReached | sysc_vp/deps/systemc/src/tlm_utils/simple_target_socket.h:474-480 | a run of one call that ends like that |
| BlockingToNonBlocking.StepKeeps | sysc_vp/deps/systemc/src/tlm_utils/simple_target_socket.h:450-512 | every step keeps map, queue, stages and wake-up in agreement |
| BlockingToNonBlocking.TakeKeeps | sysc_vp/deps/systemc/src/tlm_utils/simple_target_socket.h:450-512 | one turn of the thread, for each answer of the target and whatever it calls on the return path before it answers |
| BlockingToNonBlocking.BackwardKeeps | sysc_vp/deps/systemc/src/tlm_utils/simple_target_socket.h:141-167 | END_REQ and BEGIN_RESP on the backward path |
| TargetSocket.NonBlockingTarget.Notify | sysc_vp/deps/systemc/src/tlm_utils/peq_with_get.h:45-49 | the transaction is queued behind those not later, the event notified by its override rules |
| TargetSocket.NonBlockingTarget.GetNextTransaction | sysc_vp/deps/systemc/src/tlm_utils/peq_with_get.h:57-74 | the first transaction that is due; otherwise nothing is taken and the event is armed |
| TargetSocket.NonBlockingTarget.BTransport | sysc_vp/deps/systemc/src/tlm_utils/simple_target_socket.h:310-326 | the call up to its wait |
| TargetSocket.NonBlockingTarget.B2nbThread | sysc_vp/deps/systemc/src/tlm_utils/simple_target_socket.h:450-512 | a run of the thread up to its next wait for the queue, with everything others do in its other waits: every transaction due has been sent, the event is armed in time for the rest, no assertion fails, and exactly the calls that are done have been notified, once |
| TargetSocket.NonBlockingTarget.ThreadTakes | sysc_vp/deps/systemc/src/tlm_utils/simple_target_socket.h:450-512 | one turn of the thread with every answer of the target, and its calls on the return path from inside nb_transport_fw |
| TargetSocket.NonBlockingTarget.TargetCalls | sysc_vp/deps/systemc/src/tlm_utils/simple_target_socket.h:141-167 | END_REQ, BEGIN_RESP or both from inside nb_transport_fw |
| TargetSocket.NonBlockingTarget.FinishTurn | sysc_vp/deps/systemc/src/tlm_utils/simple_target_socket.h:474-503 | the waits after BEGIN_REQ end with the thread back at the head of its loop and the invariant kept, whatever happens meanwhile |
| TargetSocket.NonBlockingTarget.NbTransportBw | sysc_vp/deps/systemc/src/tlm_utils/simple_target_socket.h:141-167 | forwarding, END_REQ, BEGIN_RESP and the error |
| Handshake.OneAtATime | sysc_vp/src/core.cpp:86-131 | at most one task queued or in service, at most one memory access outstanding, exactly while the worker has pushed one that is not answered; no promise set twice; only addresses in range reach the queue |
| Handshake.TasksAreRequests | sysc_vp/src/core.cpp:86-171 | the tasks of a run are those its calls push, in order |
| Handshake.AccessesArePassed | sysc_vp/src/memory_callbacks.cpp:8-79 | the memory accesses are those the callbacks let through, with their addresses, each once and in order |
| Handshake.NothingLeftOver | sysc_vp/src/core.cpp:101-130 | when simulate or another call has returned both queues are empty and every promise was set exactly once |
| Handshake.CountInsideAccess | sysc_vp/src/core.cpp:134-137 | cycle_count during a memory access pushes nothing and reads the count from before the running simulate |
| Handshake.DrainedBeforeExit | sysc_vp/src/core.cpp:27-44 | the worker exits only with an empty queue, and the destructor finishes only after that |
| Handshake.CycleCountExact | gluecode.py:81-91 | for every run: cycle_count between calls is the sum of the simulate arguments of the run since the callbacks were set if and only if no step was left out by an exception and the sum is below 2^31, or the sum lies within 2^31 below 2^64 and the steps left out are a multiple of 2^32 |
| Handshake.IntRoundTrip | sysc_vp/src/python_tasks.cpp:20-23 | what becomes of any count on its way through the int field: unchanged below 2^31, otherwise the same modulo 2^32, sign-extended |
| Handshake.CallInsideAccessDeadlocks | sysc_vp/src/core.cpp:101-128 | after any other call from inside a memory access no step of either thread can follow, but the notification the worker may still owe: neither its promise nor that of the access is ever set |
| Handshake.DeadlockExactly | sysc_vp/src/core.cpp:86-149 | over every run, no step of either thread is possible short of the end of the destructor if and only if there has been such a call, or the worker has notified the end of simulate between the test of the wait's condition and the sleep, and neither thread has one last step to its stop |
| Handshake.Progress | sysc_vp/src/core.cpp:86-222 | as long as neither has happened, some step is possible in every state before the end of the destructor |
| Handshake.OwesStep | sysc_vp/src/python_tasks.cpp:25-31 | a sleeping simulate whose promise is set has its notification still to come, unless that has just been missed |
| Handshake.AccessIsReached | sysc_vp/src/core.cpp:101-128 | a run that leads to a memory access being served |
| Handshake.OversleepingIsReached | sysc_vp/src/core.cpp:106-108 | a run of one simulate of one cycle that sleeps for ever though its promise is set |
| Handshake.RunKeeps | sysc_vp/src/core.cpp:86-222 | every step of either thread keeps the invariant over queues, promises, flags and counts |
| HandshakeClasses.PythonCpu.Simulate | gluecode.py:81-86 | all steps are counted; if one raises, those up to and including it |
| HandshakeClasses.PythonCpu.SetCallbacks | gluecode.py:74-79 | setting the callbacks and the reset that follows leave the counter at zero |
| HandshakeClasses.PydrofoilCore.Call | sysc_vp/src/core.cpp:47-83 | a call that waits for its task, while the worker does what it may: on return both queues are empty, every promise has been set exactly once, and only the one task was added |
| HandshakeClasses.PydrofoilCore.Destroy | sysc_vp/src/core.cpp:27-44 | the destructor finishes with the worker gone, the queue empty and every promise set once |
| HandshakeClasses.PydrofoilCore.Simulate | sysc_vp/src/core.cpp:86-130 | the service loop: on return nothing is left over, every memory access has been answered once, and every step asked for is counted or was left out after one that raised |
| HandshakeClasses.PydrofoilCore.AwaitAccess | sysc_vp/src/core.cpp:105-117 | the wait of simulate, with its test, sleep and wake-up, ends with a memory access taken or the promise set |
| HandshakeClasses.PydrofoilCore.CycleCountCall | sysc_vp/src/core.cpp:134-149 | answered at once while a simulate runs; otherwise the count is read back, and the answer is the sum of the simulate arguments if and only if no step was left out and the sum is below 2^31, or the sum lies within 2^31 below 2^64 and a multiple of 2^32 steps was left out |
| HandshakeClasses.PydrofoilCore.TakeTask | sysc_vp/src/core.cpp:198-217 | the worker takes the next task or exits with an empty queue |
| HandshakeClasses.PydrofoilCore.RunSimulate | sysc_vp/src/python_tasks.cpp:25-31 | the Simulate handler with the steps and memory accesses of the processor: its promise and those of its accesses are set once, and the count is read back |
| HandshakeClasses.PydrofoilCore.PythonWorkerLoop | sysc_vp/src/core.cpp:198-222 | the worker exits only when told to and with its queue empty, every promise of a task and of an access set exactly once |
| HandshakeClasses.PydrofoilCore.MemoryCallback | sysc_vp/src/memory_callbacks.cpp:8-20 | exactly the addresses in range pass, and only after the simulate has announced itself |
| Fir.Refines | sysc_vp/deps/systemc/examples/sysc/fir/fir_fsm.cpp:46-81 | for every stream of samples held while the filter is busy, controller and datapath give the behavioural results, except the one still in progress |
| Fir.ResultsAreConvolution | sysc_vp/deps/systemc/examples/sysc/fir/fir.cpp:56-79 | both give the sixteen-tap convolution of the samples that the run offers, one result for each, but for the one controller and datapath are working on |
| Fir.NoOverflow | sysc_vp/deps/systemc/examples/sysc/fir/fir.cpp:43-67 | no product overflows 17 bits and no partial sum 19 bits |
| Fir.DataExact | sysc_vp/deps/systemc/examples/sysc/fir/fir_data.cpp:67-98 | each state of the datapath adds its group of taps |
| Fir.StepKeeps | sysc_vp/deps/systemc/examples/sysc/fir/fir_data.cpp:67-98 | clock edges and sample changes keep both filters in step |
| Fir.BehaviourConvolves | sysc_vp/deps/systemc/examples/sysc/fir/fir.cpp:56-79 | the shift register holds the last sixteen samples and every result is the convolution |
| Fir.ResetRestarts | sysc_vp/deps/systemc/examples/sysc/fir/fir_data.cpp:41-102 | after a pulse of reset of any length, with any changes of the sample in it, both filters are in step again if and only if it did not come in the output state, or with nothing but zero to shift in |
| Fir.RefinesAfterReset | sysc_vp/deps/systemc/examples/sysc/fir/fir_fsm.cpp:41-83 | from then on the refinement holds as from the start |
| Fir.OutputIsReached | sysc_vp/deps/systemc/examples/sysc/fir/fir_fsm.cpp:46-81 | the output state is reached with any sample |
| FirClasses.FirThread.Accumulate | sysc_vp/deps/systemc/examples/sysc/fir/fir.cpp:60-67 | the loop over the taps, through 17 and 19 bits, computes the whole sum |
| FirClasses.FirThread.ShiftIn | sysc_vp/deps/systemc/examples/sysc/fir/fir.cpp:69-74 | the register moves by one place |
| FirClasses.FirThread.ClockEdge | sysc_vp/deps/systemc/examples/sysc/fir/fir.cpp:52-79 | the thread between two waits |
| FirClasses.FirFsm.ClockEdge | sysc_vp/deps/systemc/examples/sysc/fir/fir_fsm.cpp:41-83 | the controller's switch, and its reset |
| FirClasses.FirData.Clear | sysc_vp/deps/systemc/examples/sysc/fir/fir_data.cpp:47-52 | accumulator and register are cleared |
| FirClasses.FirData.ShiftIn | sysc_vp/deps/systemc/examples/sysc/fir/fir_data.cpp:92-95 | the register moves by one place |
| FirClasses.FirData.Entry | sysc_vp/deps/systemc/examples/sysc/fir/fir_data.cpp:41-102 | one run of the datapath's process, in and out of reset |
| Polynomials.RegisterIsRemainder | sysc_vp/deps/mwr/src/mwr/core/bitops.cpp:66-123 | the shift register computes the remainder of schoolbook long division |
| Registers.Divides | sysc_vp/deps/mwr/src/mwr/core/bitops.cpp:66-123 | a register in a word, fed a message byte by byte, ends with the remainder, for any divisor and start value |
| Registers.ByteLinear | sysc_vp/deps/mwr/src/mwr/core/bitops.cpp:66-123 | the division is linear in register and message |
| Registers.ByteChange | sysc_vp/deps/mwr/src/mwr/core/bitops.cpp:66-123 | a change of one byte goes unnoticed exactly when the change alone leaves no remainder |
| Registers.SumDiffers | sysc_vp/deps/mwr/src/mwr/core/bitops.cpp:66-123 | registers that differ stay different, whatever bytes follow |
| Crc7.RemainderExactly | sysc_vp/deps/mwr/src/mwr/core/bitops.cpp:66-70 | for every message, crc7 is the remainder modulo x^7 + x^3 + 1, with the start value at the head of the message, if and only if the start value is even |
| Crc7.EvenStartNeeded | sysc_vp/deps/mwr/src/mwr/core/bitops.cpp:66-70 | an odd start value never gives the checksum of the even one below it |
| Crc7.Table | sysc_vp/deps/mwr/src/mwr/core/bitops.cpp:41-64 | a turn of the table-driven loop is eight bits of division |
| Crc7.TableEntry | sysc_vp/deps/mwr/src/mwr/core/bitops.cpp:41-64 | every entry of the table is eight bits of division of its index |
| Crc7.DetectsByte | sysc_vp/deps/mwr/src/mwr/core/bitops.cpp:66-70 | one changed byte goes unnoticed exactly when the change is 0x89, the polynomial |
| Crc7.Checksum | sysc_vp/deps/mwr/src/mwr/core/bitops.cpp:66-70 | the loop over the buffer computes the checksum of the table |
| Crc16.RemainderExactly | sysc_vp/deps/mwr/src/mwr/core/bitops.cpp:104-108 | for every message and start value, crc16 is the remainder modulo x^16 + x^12 + x^5 + 1 |
| Crc16.Table | sysc_vp/deps/mwr/src/mwr/core/bitops.cpp:104-108 | a turn of the table-driven loop is eight bits of division |
| Crc16.TableEntry | sysc_vp/deps/mwr/src/mwr/core/bitops.cpp:72-102 | every entry of the table is eight bits of division of its index |
| Crc16.DetectsByte | sysc_vp/deps/mwr/src/mwr/core/bitops.cpp:104-108 | checksums of messages that differ in one byte differ |
| Crc16.Checksum | sysc_vp/deps/mwr/src/mwr/core/bitops.cpp:104-108 | the loop over the buffer computes the checksum of the table |
| Crc32.RemainderExactly | sysc_vp/deps/mwr/src/mwr/core/bitops.cpp:111-123 | for every message and start value, crc32 is the remainder of the message with reversed bytes modulo the polynomial 0x04c11db7 |
| Crc32.FeedByte | sysc_vp/deps/mwr/src/mwr/core/bitops.cpp:114-119 | the inner loop, least significant bit first, divides the reversed byte |
| Crc32.DetectsByte | sysc_vp/deps/mwr/src/mwr/core/bitops.cpp:111-123 | checksums of messages that differ in one byte differ |
| Crc32.Checksum | sysc_vp/deps/mwr/src/mwr/core/bitops.cpp:111-123 | the outer loop |
| Crc32.Reversed | sysc_vp/deps/mwr/src/mwr/core/bitops.cpp:15-39 | the table BITREV_TABLE reverses the bits of a byte |
| Crc32.ReversedTwice | sysc_vp/deps/mwr/src/mwr/core/bitops.cpp:15-39 | reversing twice gives the byte back |
| Strings.UnescapeEscapeExactly | sysc_vp/deps/mwr/src/mwr/stl/strings.cpp:93-117 | a string comes back from escape and unescape if and only if none of its characters occurs twice among those to escape |
| Strings.AlwaysComesBack | sysc_vp/deps/mwr/src/mwr/stl/strings.cpp:93-117 | every string comes back if and only if the characters to escape are distinct and not among the three special ones |
| Strings.SplitEscapedPieces | sysc_vp/deps/mwr/src/mwr/stl/strings.cpp:119-169 | splitting an escaped string gives exactly its non-empty pieces |
| Strings.QuotedSection | sysc_vp/deps/mwr/src/mwr/stl/strings.cpp:119-143 | a quoted text, with what is special in it escaped, goes into the piece as it is, whatever separates the pieces, and splitting goes on behind it |
| Strings.QuoteNeverClosed | sysc_vp/deps/mwr/src/mwr/stl/strings.cpp:119-143 | if the quote is never closed all the rest is one piece |
| Strings.PlainSection | sysc_vp/deps/mwr/src/mwr/stl/strings.cpp:119-143 | the same for a text with nothing special in it, as it stands; a backslash at the very end stands for itself |
| Strings.SplitJoinExactly | sysc_vp/deps/mwr/include/mwr/stl/strings.h:49-60 | splitting the join of escaped fields gives the non-empty fields back, for all fields, if and only if the separator is not special |
| Strings.JoinTogether | sysc_vp/deps/mwr/include/mwr/stl/strings.h:49-60 | join puts the separator between any two parts of a list, and nothing else |
| Strings.UnescapeRun | sysc_vp/deps/mwr/src/mwr/stl/strings.cpp:106-117 | a run of backslashes is halved |
| Strings.FirstLost | sysc_vp/deps/mwr/src/mwr/stl/strings.cpp:93-117 | a character escaped twice does not come back |
| Strings.SpecialSeparatorFails | sysc_vp/deps/mwr/src/mwr/stl/strings.cpp:145-169 | with a special separator two plain fields run together |
| Strings.EscapeString | sysc_vp/deps/mwr/src/mwr/stl/strings.cpp:93-104 | the nested loops compute the escaped string |
| Strings.Marks | sysc_vp/deps/mwr/src/mwr/stl/strings.cpp:96-100 | the inner loop writes one backslash per occurrence |
| Strings.UnescapeString | sysc_vp/deps/mwr/src/mwr/stl/strings.cpp:106-117 | the loop computes the unescaped string |
| Strings.SplitString | sysc_vp/deps/mwr/src/mwr/stl/strings.cpp:119-143 | the loop with its quote flag computes the pieces |
| Strings.JoinStrings | sysc_vp/deps/mwr/include/mwr/stl/strings.h:49-60 | the elements with the separator in between |
| MulDiv.UMul64Slow | sysc_vp/deps/mwr/include/mwr/core/muldiv.h:19-38 | the two words are the whole 128-bit product |
| MulDiv.IMul64Slow | sysc_vp/deps/mwr/include/mwr/core/muldiv.h:49-60 | the two words are the product in two's complement |
| MulDiv.Digits | sysc_vp/deps/mwr/include/mwr/core/muldiv.h:19-38 | the digits of the schoolbook product with their carries |
| MulDiv.Signed | sysc_vp/deps/mwr/include/mwr/core/muldiv.h:49-60 | the two corrections turn the unsigned product into the signed one |
| Saturate.SatAdd | sysc_vp/deps/mwr/include/mwr/core/saturate.h:20-36 | the clamped sum, and sat exactly when the true sum is out of range, at every width |
| Saturate.SatAdd3 | sysc_vp/deps/mwr/include/mwr/core/saturate.h:38-54 | the clamped sum of three, and sat exactly when the true sum is out of range, at every width |
| Saturate.LeftToRightDiffers | sysc_vp/deps/mwr/include/mwr/core/saturate.h:43-47 | without the exchange of operands the result could be wrong |
| SparseMemory.Memory.WriteMem | testmain.c:21-47 | the block list agrees with one total map, updated at one address; block ids stay aligned and distinct |
| SparseMemory.Memory.ReadMem | testmain.c:49-67 | what the total map holds, zero where nothing was written |
| SparseMemory.Memory.FindBlock | testmain.c:26-34 | the walk along the list finds the block of an id, or none |
| SparseMemory.Memory.Prepend | testmain.c:36-46 | a cleared block with one word is put in front |
| SparseMemory.Memory.Allocate | testmain.c:40-44 | a cleared block with one word |
| SparseMemory.Memory.Overwrite | testmain.c:28-31 | the word is stored in the block of its address |
| SparseMemory.Memory.WritesThenRead | testmain.c:21-67 | any sequence of writes and a read behave like the total map |
| SparseMemory.HoldsLastWrite | testmain.c:21-67 | the total map holds the last word written to each address |

## Left out

- RSA: `find_prime` and its random search are not modelled; the two primes are assumptions. Printing and the string conversion of messages are left out.
- MillerRabinBound.RoundsErr: counts sequences of bases; that a random string modulo n - 1 is not quite uniform is not modelled.
- Rsa.RsaRun: takes the primes and the draw of the message as parameters, because drawing them is random.
- TimeOrderedList.List: its elements are addresses into an explicit store with a free list, not objects of their own, so aliasing from outside the list is not modelled; the accessors for the second entry's time and for delta stamps, and the destructor, are left out.
- Payload event queue: memory management of payloads and the constructors that spawn `fec` are left out; a callback that throws, or an immediate loop that never ends because its callbacks keep notifying, is not modelled.
- Peq.DeltaList.Get: returns the entry, where the code returns a reference into the vector. A callback that notifies immediately can make the vector grow while it still holds its phase by that reference; likewise the reference from `top` outlives its element when a callback cancels and notifies again. What the callback then reads is not modelled.
- TLM adapters: delays are arbitrary in the non-blocking-to-blocking adapter, so its events carry no times. The tagged socket repeats the untagged one. Debug transport, direct memory, registration and the memory manager extension around a blocked call are left out.
- BlockingToNonBlocking.NotifiedExactlyOnce: assumes that initiators do not reuse a payload in flight and that the target follows the base protocol, because the map is keyed by payload address.
- simple_bus: masters and the test bench are steps, not programs. Liveness is not claimed: a blocking call on a misaligned or unmapped address is never notified, priorities can starve, and a slow slave with no wait states never answers. Verbosity is left out.
- SimpleBusClasses.BusModule: keeps its request forms as values in a sequence; the memories are objects with arrays of their own.
- Handshake: fairness between the threads is not claimed, nor that a processor step ends; a condition variable that wakes up of its own accord, as the C++ standard allows, would end the sleep after a missed notification and is not modelled. Values read from the bus, the bus itself, debugger register values and a null processor handle are left out; data races on plain fields are not modelled beyond the order of the steps.
- FIR: test bench and display are left out; the signals of clock, reset and data are those of the two modules. A pulse of reset covers at least one clock edge, and results are counted from its end.
- Checksums: buffers are sequences of bytes; the tables are functions written in rows of sixteen. The 16-, 32- and 64-bit forms of bit reversal are left out.
- Strings: the other helpers of the file (trimming, padding, case, replace) are left out as easy; characters are not bytes of an encoding.
- MulDiv.UMul64Slow: stands for `umul64` as well, whose 128-bit branch is a single multiplication of the compiler.
- Saturate.SatAdd: evaluates the bitwise condition on the top bits only, because only the sign of the expression is used; saturating subtraction and the unsigned forms are left out.
- Sparse memory: a failed allocation is not modelled; the access size is ignored, as in the code.
- pkt_switch and risc_cpu, the SystemC kernel itself, vcml, the Pydrofoil processor, sockets, terminals, dynamic libraries, file formats, logging and registration code are not part of this model.
