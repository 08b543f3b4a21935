# A verified model of the miradex BTC/XMR swap client

The client drives a swap between Bitcoin and Monero against a server, blockchain providers, Monero
nodes and a random generator that it does not trust. What it promises is one thing seen from many
sides: whatever comes back from outside, it emits signatures, transactions and screens only when
stated conditions hold. This project models the parts of the client that make those decisions and
proves that they hold for every input and on every run.

Everything from outside is a parameter: a run is any sequence of answers, and each theorem holds for
all of them. Library functions (hashing, signing, point and address coding) are arbitrary total
functions; a theorem that needs a property of them, such as injectivity, names it as a hypothesis.
Code that updates state is modelled by classes and methods with loops, each proved equal to a
function of its inputs; the theorems are lemmas about those functions.

| files | part of the client |
|---|---|
| `Driver`, `DriverLoop`, `DriverSafety`, `DriverRounds`, `DriverLatches`, `NamedOutput` | the polling loop that funds the lock, checks Alice's Monero and releases Bob's encrypted signature; where the fields of what it posts come from, what moves its latches, and when a run goes on or ends |
| `Bitcoin`, `Script`, `Presign`, `Signatures`, `Refund`, `Ledger`, `Der` | the lock script and the witnesses it accepts, the pre-signed transaction graph, what its signatures sign, the refund builders that rebuild it, the graph run as a ledger under BIP 68, the DER codec |
| `Varint`, `Scalars`, `MoneroKeys`, `MoneroLock`, `MoneroSpend` | varints, scalar codecs, the key algebra from lock check to scan to spend |
| `Sorting`, `Offsets`, `Decoys`, `RingBytes`, `Sweep`, `LockSweep` | decoy selection, key offsets, the binary form of a ring, the sweep transaction, one sweep attempt from the scan to the data signed |
| `Text`, `Tally`, `Settled`, `Quorum`, `QuorumNumbers`, `VaultOrder` | merging the answers of several providers |
| `FlowContext`, `SwapFlow`, `SwapFlowRun`, `SwapFlowSafety`, `SwapFlowPolls`, `SwapFlowVerified`, `SwapFlowOutcomes`, `SwapFlowRetries` | the flow that shows a swap to its user |
| `Retry` | retrying by error category |
| `Json`, `Canonical`, `Snapshot` | canonical JSON and the recovery snapshot |

## Main results

- **Driver.** On every run each `/fund` post follows an accepted DLEQ proof, pays the address of
  (A, B), comes from a graph inside all its bounds, has a refund encsig and, where the host can store
  one, a snapshot on disk or one saved for that very funding, with the encsigs, cancel signature and
  lock address of the post in it (`FundingIsJustified`). The encsigs are those of the server's reply, or
  of its parameters, and every other field posted is tied to what its round was answered
  (`EveryEventIsTied`). Each `submit_encsig`
  follows a round in which the lock check ran on the transaction fetched and saw ten confirmations and,
  in the first unlocked output paying S_a + S_b, the expected amount; it signs the digest computed
  locally, that of TxRedeem, which commits to the key the coins were locked to (`ReleaseIsJustified`,
  `FundedKeyIsReleased`, `RedeemDigestIsExact`). Both are also characterised exactly
  (`FundsExactlyWhen`, `ReleasesExactlyWhen`), and so are the Monero check (`DriverChecksExactly`) and
  when a run goes on (`GoesOnExactly`); the reason an ended run gives is true (`ExitsAreTrue`). `Drive`
  computes exactly these runs.
- **Transaction graph.** Acceptance is characterised exactly (`AcceptsExactly`), every signature fits
  the output it is meant to spend (`EverySignatureFits`), the lock opens only for two signatures
  (`MultisigNeedsBoth`), the digest released is that of the ledger's TxRedeem (`DigestIsOfRedeem`), the
  refund builders rebuild the very
  transactions that were pre-signed (`PartialRefundMatchesTemplate`), and the graph run as a ledger
  conserves the lock, spends nothing twice, keeps its timelocks, makes Bob whole and, once it is
  partly refunded, leaves him four fifths of the lock whatever follows (`BobKeepsFourFifths`).
- **Monero.** The lock check is characterised exactly and accepts every honest lock, whichever output
  pays the key (`LockVerifiedExactly`, `HonestLockIsVerified`). The combined key can spend the output
  that was checked; the sweep's scan finds it, with the same amount, if and only if it can scan every
  output of the transaction, and throws otherwise (`VerifiedLockIsSpendable`, `ScanSucceedsExactly`).
  The output the sweep signs for is that one if and only if no earlier time-locked output pays the key
  too (`SignedInputIsVerifiedOutput`). An honest lock is signed for exactly when it can be scanned, its
  amount covers eleven fees and a good ring is found (`HonestLockIsSweptExactly`). This is for one
  transaction and one view key: the sweep fetches the transaction again, from a single node, and takes
  the view key from the server. The data that reaches the signer is sound whatever the nodes answer
  (`SignedDataIsSound`, `SweepSignsExactly`), its bytes read back (`SelectedInputReadsBack`), and the key
  offset in them opens the output they name (`SignedBytesOpenOutput`). Decoys are exactly what the draws
  pick (`DecoysArePicked`, `PickInFull`).
- **Quorums.** Each provider that answers counts once, and a rejected one not at all (`OneForOne`). What
  is accepted is what a quorum of providers sent (`PickQuorumUtxos`, `PickQuorumString`,
  `FetchTransactionQuorum`), so an honest one sent it, or one near it. How many faulty answers a median
  bears is exact (`MedianIsSafeExactly`, `ConfirmationsAreSafeExactly`).
- **Flow.** A refused deposit address is never shown (`RefusedStartShowsNothing`), an address is shown
  exactly when it was released and it never changes (`AddressShownExactly`), a restricted run shows
  nothing sensitive, every phase in progress is validated, and when a swap is shown as verified is told
  exactly from what the flow is answered (`VerifiedShownExactly`, `ResumedVerifiedExactly`). Whatever a
  run tells of a deposit, of progress or of an end, the server said, with the amounts and hashes it
  said (`StartTellsTheTruth`, `ResumeTellsTheTruth`), and an end that is polled is shown
  (`StartShowsEnd`, `ResumeShowsPolledEnd`).
- **Snapshot.** The canonical text decides equality up to member order (`CanonicalTextDecides`), so the
  integrity check passes every reordering of a snapshot and catches every other change that leaves the
  digest as it was (`ChangedSnapshotFailsExactly`). The digest has no key: whoever alters the body and
  computes the digest anew passes the check. Built snapshots survive being written with any
  indentation and read again (`ReloadedSnapshotVerifies`).

Some promises fail on corner inputs. The code is modelled as it is, a lemma gives the input, and
another says exactly when the promise holds:

- The partial refund builder refuses a refund output of 294 sats that pre-signing accepts
  (`PartialRefundCanBeRefused`, `PartialRefundMatchesTemplate`).
- The TypeScript varint writer agrees with the Rust ones below 2^32 only (`WritersAgreeExactly`).
- A node may answer a negative quantisation mask, to which the fee is not rounded
  (`FeeCanBeUnquantised`, `FeeIsQuantisedExactly`).
- A vault key can stand for two vaults (`VaultKeysCanCollide`); it stands for one if and only if neither
  the chain name nor the address holds a colon (`VaultKeyUnambiguousExactly`).
- The vault merge can depend on the order of its sources, unless those reporting the same vault agree
  on whether it is live (`VaultMergeDependsOnOrder`, `VaultMergeIgnoresOrderExactly`).
- With the default quorum of two, one node can make the lock check see ten confirmations where the
  honest node saw none (`OneLiarConfirms`). Agreed confirmations were seen by an honest node for every
  input if and only if the faulty nodes are fewer than half of the quorum
  (`ConfirmationsAreSafeExactly`); the same bound holds for medians of any answers
  (`MedianIsSafeExactly`, `MedianOfTwo`).
- The sweep spends the first output it finds, and the lock check passes over time-locked outputs. A lock
  can be verified for one output while another, of any amount, is swept (`VerifiedLockIsNotSwept`,
  `LockedDustComesFirst`); when that happens is exact (`SignedInputIsVerifiedOutput`).
- The lock check reduces the view key, which the server names, modulo the group order; the Rust code
  refuses one that is not reduced. A verified lock can so be one on which every sweep throws
  (`VerifiedLockIsNotScanned`, `UnreducedViewKeyStopsScan`); when the scan succeeds is exact
  (`ScanSucceedsExactly`).
- The real index of a ring is one byte: in a ring of 257 it can name the wrong member
  (`RealIndexCanBeWrong`), in rings of at most 256 never (`RealIndexIsRightExactly`,
  `BytesReadBackExactly`).
- The recovery snapshot can name another lock output than the one funded, because the server's word on
  it is taken over the client's own (`WrongOutputIsSaved`, `AnyOutputIsSaved`,
  `RecoveryNamesLockExactly`).
- A swap the verifier refused can later be shown as verified: verification data in a polled detail marks
  it, unseen by the verifier (`RefusedSwapCanSayVerified`, `RefusedShownExactly`).
- A punished swap has a phase and a text, but the status is not among those that end a run: no run
  ever shows it (`PunishedIsNeverShown`), and a poll that brings it is passed over
  (`PunishedPollIsPassedOver`).
- A swap resumed past its deposit is shown as verified even if the verifier throws
  (`RaisedSwapCanSayVerified`, `ResumedVerifiedExactly`).

Where the code and its comments differ the model follows the code. The comment on emitting a deposit
address says verification gates it; the code skips the verifier when the server sends no verification
data, and `Released` says so. The driver's verified flags are latched once per run, not once per set
of parameters.

## Model

| member | source | states |
|---|---|---|
| Bitcoin.FindOutput | src/atomic-swap/presign.ts:158-175 | The first output paying the script, and none exactly when no output pays it |
| Bitcoin.FindMultisigOutput | src/atomic-swap/presign.ts:158-175 | The search loop finds the first such output; it succeeds if and only if one exists |
| Bitcoin.WitnessScriptInjective | src/atomic-swap/presign.ts:142-156 | A lock script determines both of its keys |
| Bitcoin.P2wshBindsKeys | src/atomic-swap/presign.ts:126-156 | With script hashing injective, two lock outputs are equal only if their keys are |
| Script.LockNeedsBoth | src/atomic-swap/presign.ts:142-156 | Run on a witness, the lock script accepts exactly two signatures: one valid for A on top, one valid for B below |
| Script.MultisigNeedsBoth | src/atomic-swap/presign.ts:142-156 | The same for the script made of two keys in hexadecimal, which exists if and only if both decode to 33 bytes |
| Script.LockIsWitnessOutput | src/atomic-swap/presign.ts:126-156 | A lock output is a version-0 witness output (BIP 141) whose program is the hash of the lock script |
| Presign.AcceptsExactly | src/atomic-swap/presign.ts:212-460 | Pre-signing succeeds if and only if every timelock, fee, dust, cap, key and address bound holds, whatever the order of the checks |
| Presign.DefaultBounds | src/types/verification.ts:51-66 | The bounds of the default policy in satoshis: fees of 154 to 77000, of 187 to 93500 for two outputs, outputs of 294 or 330, an amnesty of at most a fifth of the lock |
| Presign.AmnestyAcceptsExactly | src/atomic-swap/presign.ts:348-450 | The amnesty branch succeeds if and only if its own bounds hold and the refund address decodes |
| Presign.ComputePreSigs | src/atomic-swap/presign.ts:212-460 | The guards and transaction objects of the code produce Bob's signatures over the specified graph, or the specified first error |
| Presign.FindLock | src/atomic-swap/presign.ts:142-175 | The lock output of a transaction for keys (A, B), or the first error |
| Presign.FillTransaction | src/atomic-swap/presign.ts:177-193 | Filling an object input by input and output by output gives the one-input transaction with those outputs |
| Presign.BuildSpendTx | src/atomic-swap/presign.ts:177-193 | The single-output spend of an outpoint, or a bad address |
| Presign.SignAmnesty | src/atomic-swap/presign.ts:348-450 | TxReclaim and TxWithhold are signed over the amnesty output, TxMercy over what TxWithhold leaves |
| Presign.FundingSpendsWallet | src/atomic-swap/drive.ts:235-265 | The funding transaction has version 2, spends every coin of the wallet once and in order, and pays the lock address the amount asked for, or else all of them |
| Presign.RedeemDigestIsExact | src/atomic-swap/presign.ts:515-549 | A digest is computed if and only if the lock output is found, the fee and what it leaves are within bounds and the address decodes; it is then the hash at input 0, for the script and value of the lock output, of the version-2 transaction that spends this output and pays the redeem address the lock less the fee |
| Presign.RedeemBindsFundedKey | src/atomic-swap/presign.ts:515-549 | On a transaction funding the (A, B) address a redeem digest exists for parameters naming A' only if A' is A |
| Signatures.EverySignatureFits | src/atomic-swap/presign.ts:195-460 | Each pre-signature signs the hash for the output its transaction really spends: that output's script and value (BIP 143 commits to both) |
| Signatures.OutputsPayTheirOwners | src/atomic-swap/presign.ts:212-460 | TxPunish pays Alice's address, outputs spent again pay the 2-of-2 of (A, B), all others Bob's refund address |
| Refund.BuildFullRefund | src/atomic-swap/refund.ts:94-125 | The full refund of TxCancel, refused for missing outputs, a refund of at most 294 sats or a bad address |
| Refund.BuildPartialRefund | src/atomic-swap/refund.ts:127-172 | The two-output partial refund of TxCancel, with the errors of the code in their order |
| Refund.PartialRefundMatchesTemplate | src/atomic-swap/refund.ts:127-172 | For an accepted amnesty branch the build is the very transaction TxReclaim and TxWithhold spend; it is refused if and only if the refund output is 294 sats; amnesty is at least 602, so its dust check never fires |
| Refund.PartialRefundCanBeRefused | src/atomic-swap/presign.ts:98-109 | A swap of 3174 sats that pre-signing accepts and whose partial refund, of exactly 294 sats, is refused |
| Refund.FullRefundRefusedExactly | src/atomic-swap/refund.ts:94-125 | The full refund of an accepted swap is refused if and only if the fees leave at most 294 sats; never with a lock of 154295 or more |
| Ledger.GraphIsWellBuilt | src/atomic-swap/presign.ts:212-460 | Each transaction of an accepted graph spends the right outpoint with the right sequence and conserves value up to its declared fee |
| Ledger.DigestIsOfRedeem | src/atomic-swap/presign.ts:515-549 | The digest released is the hash of the transaction that the ledger takes for TxRedeem, and the one spelled out is that transaction |
| Ledger.TransactionsAreSeparate | src/atomic-swap/presign.ts:212-460 | With ids injective, the transactions and the outpoints of a graph are pairwise different |
| Ledger.StepFollowsStory | src/atomic-swap/presign.ts:275-450 | A transaction that confirms moves the ledger to the one next state its place in the graph allows |
| Ledger.RunFollowsStory | src/atomic-swap/presign.ts:212-460 | Every run of the ledger is in one of ten states, with exactly the coins, fees, chain and heights that state has |
| Ledger.LockValueIsConserved | src/atomic-swap/presign.ts:212-460 | In every reachable ledger, locked plus paid out plus fees is the lock value, and the fees are the declared ones |
| Ledger.NoOutpointSpentTwice | src/atomic-swap/presign.ts:212-460 | No run spends an outpoint twice, and nothing spent is still a coin |
| Ledger.TimelocksAreKept | src/atomic-swap/presign.ts:58-75 | TxCancel waits for its lock, TxPunish at least five blocks after TxCancel, TxReclaim for the remaining-refund lock |
| Ledger.BobIsMadeWhole | src/types/verification.ts:51-65 | Bob ends with at least the lock less 154000 on full refund, less 247500 on partial refund and reclaim, less 324500 on partial refund, withhold and mercy |
| Ledger.BobKeepsFourFifths | src/atomic-swap/presign.ts:348-450 | Once TxPartialRefund is confirmed Bob holds, in every later ledger, at least four fifths of the lock less 170500 sats, whatever becomes of the amnesty output |
| Ledger.RefundWindow | src/atomic-swap/refund.ts:94-125 | While TxCancel is younger than the punish lock, punishing changes nothing and the full refund is open |
| Der.TrimLeadingZeros | src/atomic-swap/refund.ts:283-287 | The cursor loop drops leading zeros and keeps the last byte |
| Der.DecodeDer | src/atomic-swap/refund.ts:266-281 | The cursor-moving decoder computes the specified decoding, including where it throws |
| Der.PadUndoesTrim | src/atomic-swap/refund.ts:283-301 | Padding restores every 32-byte half that trimming shortened |
| Der.ReadsBack | src/atomic-swap/refund.ts:266-294 | An encoded integer reads back wherever it stands |
| Der.DerRoundTrip | src/atomic-swap/refund.ts:250-281 | Decoding the encoding of any 64-byte signature gives it back |
| Der.EncodingIsStrict | src/atomic-swap/refund.ts:250-264 | The encoding with a sighash byte is strict by BIP 66, "DER encoding reference": 9 to 73 bytes, minimal non-negative integers |
| Driver.FundPosts | src/atomic-swap/drive.ts:420-446 | One to six posts, all but the last refused |
| DriverRounds.PostsAreMade | src/atomic-swap/drive.ts:420-443 | Post i of a round is made if and only if it is one of the first six and the broker was not ready at any before it; it succeeds if and only if it is accepted |
| DriverRounds.RoundIsTied | src/atomic-swap/drive.ts:90-687 | Every field of every event of a round is what the round was answered or is computed from it: parameters, address, transaction, pre-signatures of that transaction, encsigs of the reply or of the parameters, the snapshot saved before, the swept key |
| DriverRounds.EveryEventIsTied | src/atomic-swap/drive.ts:65-688 | Every event of a run belongs to one of its rounds, and is tied so to that round |
| DriverRounds.DriverChecksExactly | src/atomic-swap/drive.ts:470-542 | The Monero check of a round accepts an output with an amount if and only if the chain holds it: ten confirmations, no time lock, the transaction key where one is given, the first unlocked payment to S_a + S_b under the view key, and the expected amount |
| DriverLatches.LatchesMove | src/atomic-swap/drive.ts:65-688 | Each latch and counter after a round is determined by what the round posted and was answered |
| DriverLatches.ExitsAreTrue | src/atomic-swap/drive.ts:90-687 | Whichever way a round ends a run, the reason the exit gives is true of what the round was answered |
| DriverLatches.GoesOnExactly | src/atomic-swap/drive.ts:90-687 | A run goes on after a round if and only if no check that the round comes to fails: what is waited for does not end it, and what fails is not passed over |
| DriverLoop.SwapDriver.Drive | src/atomic-swap/drive.ts:65-688 | The loop over its variables computes exactly the specified run: latches, posts and exit; every event of the trace is justified by those before it |
| DriverLoop.SwapDriver.OneRound | src/atomic-swap/drive.ts:90-687 | One pass with its early continues and throws does what the specification says |
| DriverLoop.SwapDriver.Fund | src/atomic-swap/drive.ts:115-450 | The fund branch up to the DLEQ check |
| DriverLoop.SwapDriver.VerifyAndLock | src/atomic-swap/drive.ts:168-285 | Contract check, local lock address, funding transaction and pre-signatures |
| DriverLoop.SwapDriver.PresignAndFund | src/atomic-swap/drive.ts:287-446 | Phase two: presigs, unless the server answered them before, with the cap on a stuck server |
| DriverLoop.SwapDriver.SnapshotAndFund | src/atomic-swap/drive.ts:369-446 | Phases three and four: no funding without a refund encsig and a snapshot |
| DriverLoop.SwapDriver.MaybeWriteSnapshot | src/atomic-swap/drive.ts:782-868 | A stored snapshot is kept; otherwise one is saved, whose fields `FundingIsJustified` spells out, or funding stops |
| DriverLoop.SwapDriver.PostFunding | src/atomic-swap/drive.ts:415-446 | Only an accepted post updates what was last funded and signed |
| DriverLoop.SwapDriver.RetryFund | src/atomic-swap/drive.ts:420-443 | The local retry posts until accepted, refused or six attempts |
| DriverLoop.SwapDriver.SubmitEncsig | src/atomic-swap/drive.ts:452-643 | The release branch with the Monero check: the key S_a + S_b, the amount and the keys it is given, and what each verdict leads to |
| DriverLoop.SwapDriver.DigestAndRelease | src/atomic-swap/drive.ts:544-643 | The digest, that of `RedeemDigestIsExact`, comes from the transaction signed in this run, else from the chain |
| DriverLoop.SwapDriver.Release | src/atomic-swap/drive.ts:608-643 | A digest that differs from the server's stops the run; failures are counted to three |
| DriverLoop.StoppedRunsStay | src/atomic-swap/drive.ts:90-687 | A run that has ended stays as it is |
| DriverSafety.RunIsFaithful | src/atomic-swap/drive.ts:65-688 | At every point of every run each post is justified by what came before and the latches are truthful |
| DriverSafety.FundingIsJustified | src/atomic-swap/drive.ts:115-450 | Each /fund follows an accepted DLEQ proof, pays the (A, B) address, has an accepted graph, a refund encsig and, when the host can save, a snapshot on disk or one saved before it with the parameters, lock address, encsigs and cancel signature of this very post |
| DriverSafety.ReleaseIsJustified | src/atomic-swap/drive.ts:452-643 | Each submit_encsig follows a round whose lock check accepted the Monero transaction fetched: ten confirmations, not time-locked, the expected amount in the first unlocked output paying S_a + S_b; its digest is the local one, equal to the server's when given, and that of the transaction last funded |
| DriverSafety.CheckedLockIsReal | src/atomic-swap/drive.ts:470-542 | What an accepted lock check of the driver says about the chain, in terms of S_a, S_b, the view key and the expected amount |
| DriverSafety.FundedKeyIsReleased | src/atomic-swap/presign.ts:515-549 | After a successful funding the key A at release is the key A the lock was built with |
| DriverSafety.SuccessiveFundingsDiffer | src/atomic-swap/drive.ts:134-134 | Consecutive successful fundings pay different lock addresses |
| DriverSafety.RoundFundsAtMostOnce | src/atomic-swap/drive.ts:420-446 | At most six /fund posts a round, at most one of them successful |
| DriverSafety.CountersAreBounded | src/atomic-swap/drive.ts:316-331 | At every loop head fewer than six presigs rejections and fewer than three encsig failures |
| DriverSafety.TimeoutIsPreFunding | src/atomic-swap/drive.ts:111-113 | The timeout is raised only past the deadline and in a pre-funding status |
| DriverSafety.FundsExactlyWhen | src/atomic-swap/drive.ts:115-450 | A round posts /fund if and only if all of its listed conditions hold |
| DriverSafety.ReleasesExactlyWhen | src/atomic-swap/drive.ts:452-643 | A round posts submit_encsig if and only if all of its listed conditions hold, the DLEQ proof not among them |
| DriverSafety.RecoveryNamesLockExactly | src/atomic-swap/drive.ts:387-409 | The snapshot names the lock output found in the funding transaction, with its amount, if and only if the reply to /presigs names no other; its transaction id is the computed one, unless that is empty |
| NamedOutput.AnyOutputIsSaved | src/atomic-swap/drive.ts:387-409 | Whatever round funds on a reply it reads and saves, the same round with that reply naming any output saves a snapshot with that output and then posts a transaction whose lock is output 0 |
| NamedOutput.WrongOutputIsSaved | src/atomic-swap/drive.ts:387-409 | A first round that saves a snapshot naming output 7 and funds a lock at output 0 |
| Varint.DecodeAfterEncode | miradex-rust/src/monero/sweep.rs:292-301 | A written varint reads back, and ends where it ended, whatever follows |
| Varint.PrefixFree | miradex-rust/src/monero/sweep.rs:292-301 | No varint is a prefix of another |
| Varint.LebLength | miradex-rust/src/monero/key_images.rs:137-148 | A value below 128^k takes at most k bytes |
| Varint.EncodeVarintTs | src/lib/monero/output-scanner.ts:216-226 | The TypeScript writer, whose shifts see 32 bits, writes the varint of the low 32 bits |
| Varint.WriteVarint | miradex-rust/src/monero/sweep.rs:292-301 | The sweep's writer appends exactly the varint to the buffer |
| Varint.EncodeVarint | miradex-rust/src/monero/key_images.rs:137-148 | The ten-byte writer never leaves its array for any u64, and fills it with the varint |
| Varint.WritersAgreeExactly | src/lib/monero/output-scanner.ts:216-226 | The writers agree if and only if the value is below 2^32 |
| Varint.PreimageInjective | src/lib/monero/output-scanner.ts:171-180 | Distinct (secret, index) pairs have distinct derivation preimages |
| Scalars.NormalisedResidue | src/lib/crypto/scalars.ts:34-43 | The doubled remainder is the residue in 0 to L-1 for negative numbers too |
| Scalars.ValueOfEncoding | src/lib/crypto/scalars.ts:9-18 | Reading the k little-endian bytes of a number below 256^k gives the number back |
| Scalars.EncodingOfValue | src/lib/crypto/scalars.ts:34-43 | Writing the value of a byte string gives the string back |
| Scalars.EndiannessIsReversal | src/lib/crypto/scalars.ts:9-31 | The two byte orders are each other's reversal |
| Scalars.BytesToBigIntLE | src/lib/crypto/scalars.ts:9-18 | The loop computes the little-endian value |
| Scalars.BytesToBigIntBE | src/lib/crypto/scalars.ts:20-27 | The loop computes the big-endian value |
| Scalars.BigIntToBytes | src/lib/crypto/scalars.ts:34-43 | The loop writes the 32 bytes of the number reduced modulo the group order (RFC 8032, section 5.1) |
| Scalars.ScalarBytesValue | src/lib/crypto/scalars.ts:34-43 | Those bytes spell the residue |
| Scalars.SumOfScalarsValue | src/lib/crypto/scalars.ts:52-54 | The sum of two scalars spells the sum of their values modulo L |
| Scalars.AddScalars | src/lib/crypto/scalars.ts:52-54 | The byte-level addition computes that sum |
| MoneroKeys.ExtractTxPubKey | src/lib/monero/output-scanner.ts:150-157 | The loop finds the first tag-1 key that fits in the extra field |
| MoneroKeys.TxPubKeyIsFirst | src/lib/monero/output-scanner.ts:150-157 | The key is the 32 bytes after the first tag byte 1 that has 32 bytes after it, and there is none if and only if no byte is such |
| MoneroKeys.XorByDigits | src/lib/monero/output-scanner.ts:186-213 | The masking sets a binary digit if and only if exactly one operand has it set |
| MoneroKeys.DecryptAmount | src/lib/monero/output-scanner.ts:186-213 | The byte loop computes the amount unmasked with the hash-derived key |
| MoneroKeys.VerifyXmrLocked | src/lib/monero/verify-lock.ts:60-234 | The branches and output loop compute the specified verdict |
| MoneroKeys.JudgeFromVerified | src/lib/monero/verify-lock.ts:166-232 | A positive verdict names the first output that pays the spend key, with enough in it |
| MoneroKeys.VerifiedLockIsReal | src/lib/monero/verify-lock.ts:60-234 | A verified lock is confirmed, not time-locked, and its first output paying the key holds the expected amount |
| MoneroKeys.RetryableExactly | src/lib/monero/verify-lock.ts:60-234 | A refusal may be retried if and only if the fetch failed or confirmations are missing |
| MoneroLock.LockVerifiedExactly | src/lib/monero/verify-lock.ts:60-234 | A lock is verified at an output with an amount if and only if it is confirmed, not time-locked, its secret can be computed, and that output is the first paying the key, with that amount, which is enough |
| MoneroLock.AmountReadsBack | src/lib/monero/output-scanner.ts:186-213 | An amount masked with its output's key decrypts to itself, for every u64 |
| MoneroLock.HonestLockIsVerified | src/lib/monero/verify-lock.ts:138-232 | The lock an honest Alice sends, in whatever output she pays the key, is verified at that output once confirmed, with or without her transaction key |
| MoneroSpend.PrepareSweepKeys | src/atomic-swap/monero-sweep/index.ts:160-184 | The share check, the scalar sum and the public key, with the errors of the code |
| MoneroSpend.SweepKeyOpensLock | src/atomic-swap/monero-sweep/index.ts:160-184 | If Alice's share opens S_a and S_b is Bob's point, the combined key opens S_a + S_b; the one refusal left is a zero sum |
| MoneroSpend.ScanTransactionOutputs | src/lib/monero/output-scanner.ts:36-147 | The scan loop computes the specified list |
| MoneroSpend.ScanFindsExactly | src/lib/monero/output-scanner.ts:56-96 | The scan returns exactly the outputs paying the key, each once and in order |
| MoneroSpend.ScannedInFull | src/lib/monero/output-scanner.ts:56-147 | Each output found has its own key, the transaction's, the global index the node gave it or 0, the amount the lock check decrypts, and the blinding factor of its scalar, empty for a view key that is not canonical |
| MoneroSpend.MaskIsBlindingFactor | miradex-rust/src/monero/commitment.rs:11-60 | The blinding factor is the hash of "commitment_mask" and the shared scalar the lock check derives; it is refused if and only if the view key is not 32 canonical bytes |
| MoneroSpend.OwnedKeyInFull | src/lib/monero/output-scanner.ts:56-96 | An output pays B if and only if its key is h*G + B for the non-zero h that hashing 8*v*R and the index gives |
| MoneroSpend.LockSecretExactly | src/lib/monero/verify-lock.ts:138-166 | The lock check has a secret if and only if the sweep has, and a transaction key, where given, is not zero and has the transaction's public key as its point; it is then the same secret |
| MoneroSpend.ScanSucceedsExactly | src/lib/monero/output-scanner.ts:56-147 | The scan throws if and only if, with a shared secret at hand, a keyed output has a zero scalar, or an owned one has an encrypted amount that is not of eight bytes or a view key that is not canonical |
| MoneroSpend.ScanAmountIsLockAmount | miradex-rust/src/monero/commitment.rs:44-89 | The amount the Rust code decrypts for the scan is the one the lock check decrypted |
| MoneroSpend.SecretBranchesAgree | src/lib/monero/verify-lock.ts:138-166 | The transaction-key and view-key branches reach the same shared secret |
| MoneroSpend.OwnedOutputPassesGuard | miradex-rust/src/monero/key_images.rs:43-61 | A scanned output satisfies (Hs + s)*G = P |
| MoneroSpend.VerifiedLockIsSpendable | src/atomic-swap/monero-sweep/index.ts:160-184 | What the lock check verified passes the spend guard with the combined key; the sweep's scan finds it with the same amount if and only if every output can be scanned; the scan begins with it if and only if no earlier time-locked output pays the key |
| Sorting.SortStrictExactlyWhenDistinct | miradex-rust/src/monero/sweep.rs:268-289 | Sorting ascends strictly if and only if nothing is repeated |
| Sorting.SortOfAscending | miradex-rust/src/monero/sweep.rs:268-289 | Sorting an ascending sequence changes nothing |
| Offsets.AbsoluteToRelativeOffsets | miradex-rust/src/monero/sweep.rs:268-289 | Fails if and only if the input is empty or has duplicates, naming the first repetition; otherwise its prefix sums are the sorted input and all later offsets are positive |
| Offsets.Telescope | miradex-rust/src/monero/sweep.rs:268-289 | Differences add up to the elements they came from |
| Offsets.DifferencesDetermine | miradex-rust/src/monero/sweep.rs:268-289 | Two rings with the same offsets are the same ring |
| RingBytes.BuildOutputWithDecoys | miradex-rust/src/monero/sweep.rs:180-264 | Succeeds if and only if every field check passes; the bytes encode the fields that were given |
| RingBytes.KeyOffsetIsShare | miradex-rust/src/monero/sweep.rs:193-209 | The offset written and a spend key add up to the private key of the output at its own index |
| RingBytes.WrittenOffsetOpensOutput | miradex-rust/src/monero/sweep.rs:180-264 | For an output that pays s*G, the written offset plus s, times the base point, is the written key |
| RingBytes.WriteOutput | miradex-rust/src/monero/sweep.rs:241-264 | The appending buffer holds the documented layout |
| RingBytes.OffsetsReadBack | miradex-rust/src/monero/sweep.rs:170-179 | Written offsets read back whatever follows |
| RingBytes.RingReadsBack | miradex-rust/src/monero/sweep.rs:170-179 | Written ring members read back whatever follows |
| RingBytes.ReadAfterEncode | miradex-rust/src/monero/sweep.rs:170-179 | The layout reads every field back unchanged |
| RingBytes.ReadIsBalanced | miradex-rust/src/monero/sweep.rs:170-179 | A reader takes as many members as offsets |
| RingBytes.BytesReadBackExactly | miradex-rust/src/monero/sweep.rs:180-264 | The bytes read back to the input if and only if there is one offset a member and the real index fits a byte |
| Decoys.Pick | miradex-rust/src/monero/decoys.rs:43-156 | A pick lies below the cumulative count at the unlock window |
| Decoys.PickInFull | miradex-rust/src/monero/decoys.rs:118-136 | A draw picks an output of the block its offset reaches back to, as far into it as the random word says; it picks none if and only if the offset goes back beyond the first output, or to it while the first block is empty |
| Decoys.ChosenArePicked | miradex-rust/src/monero/decoys.rs:92-143 | While decoys are wanting, those chosen are exactly what the draws so far picked, the real output aside |
| Decoys.DecoysArePicked | miradex-rust/src/monero/decoys.rs:92-156 | The decoys of a selection are exactly what its first draws, at most 1000, pick |
| Decoys.GuardPassesExactly | miradex-rust/src/monero/decoys.rs:49-90 | Drawing begins if and only if the window holds a block and leaves one, the ring has two members or more, enough outputs are unlocked, and the last 262800 blocks hold an output |
| Decoys.ChosenStays | miradex-rust/src/monero/decoys.rs:43-156 | Once enough decoys are chosen further draws change nothing |
| Decoys.SelectDecoys | miradex-rust/src/monero/decoys.rs:43-156 | The loop computes the specified selection within 1000 draws |
| Decoys.SelectionIsARing | miradex-rust/src/monero/decoys.rs:43-156 | A selection has exactly the ring size, ascends strictly, holds the real output, and every decoy is unlocked |
| Decoys.RealIndexIsRight | miradex-rust/src/monero/decoys.rs:140-156 | The reported index is the real output's if and only if its position fits a byte |
| Decoys.LargeRingMisreports | miradex-rust/src/monero/decoys.rs:140-156 | For each ring size from 257 to 1001 a selection whose reported index has wrapped around |
| Decoys.RealIndexCanBeWrong | miradex-rust/src/monero/decoys.rs:140-156 | With 257 members the real output after 256 decoys is reported at index 0 |
| Decoys.RealIndexIsRightExactly | miradex-rust/src/monero/decoys.rs:43-156 | The reported index is right for every input if and only if the ring size is at most 256, or above 1001, where no selection succeeds |
| Decoys.OffsetsFollowRingOrder | miradex-rust/src/monero/sweep.rs:268-289 | On a selection the encoder's sort is the identity, so offset i belongs to member i |
| Sweep.ValidateRingMembers | src/atomic-swap/monero-sweep/ring-select.ts:22-67 | The loop lists the faulty members in order |
| Sweep.FaultsAreExact | src/atomic-swap/monero-sweep/ring-select.ts:22-67 | A position is listed with a fault if and only if the member there has it: a key that does not decode, the identity, a commitment that does not decode, or a lock, the first of these |
| Sweep.FaultMeans | src/atomic-swap/monero-sweep/ring-select.ts:22-67 | A member has no fault if and only if its key and commitment decode, its key is not the identity and it is not locked |
| Sweep.SelectRing | src/atomic-swap/monero-sweep/index.ts:340-376 | The retry loop finds the first valid ring, or fails on the last of at most fifty selections |
| Sweep.AcceptedRingIsFirstValid | src/atomic-swap/monero-sweep/index.ts:340-376 | A ring is accepted if and only if some allowed selection has no faulty member while it and all before it were answered; it is the ring of the first such selection |
| Sweep.NetworkFee | src/atomic-swap/monero-sweep/index.ts:413-431 | The fee updated in steps, with the fallbacks for a missing estimate and a zero mask |
| Sweep.RatesInFull | src/atomic-swap/monero-sweep/index.ts:413-431 | The rate and mask are the estimate's, or 23000 a byte and 10000 without one, 10000 also for a mask of zero; the size is 3200 bytes |
| Sweep.FeeIsLeastMultiple | src/atomic-swap/monero-sweep/index.ts:428-431 | With a positive mask the fee is the least multiple of it that covers the estimate |
| Sweep.FeeIsQuantisedExactly | src/atomic-swap/monero-sweep/index.ts:415-431 | The fee is a multiple of the mask if and only if the mask is positive or the estimate already is one |
| Sweep.FeeCanBeUnquantised | src/atomic-swap/monero-sweep/index.ts:415-431 | A negative mask from a node gives a fee that is no multiple of it |
| Sweep.CheckAcceptsExactly | src/lib/monero/verify-sweep.ts:46-115 | The last check passes if and only if address, positive fee of at most a tenth, ring sizes and real indices are right |
| Sweep.BuildSweep | src/atomic-swap/monero-sweep/index.ts:288-492 | The steps of the code produce the specified data, or the specified first error |
| Sweep.SignedDataIsSound | src/atomic-swap/monero-sweep/index.ts:341-513 | Data reaching the signer pays the receive address everything but the fee, at most a tenth in fees, from sixteen members whose keys and commitments decode, none the identity or locked, with the real commitment opened; every field of the input is that of the first output found and of the first valid ring |
| Sweep.SweepSignsExactly | src/atomic-swap/monero-sweep/index.ts:341-513 | A sweep is signed if and only if the amount is at least eleven times a positive fee and the ring found has sixteen members with the real one, opened, among them |
| Sweep.SelectedInputReadsBack | miradex-rust/src/monero/sweep.rs:180-264 | With a ring from the decoy selection, the real index names the real output and the signer's bytes read back to the input |
| LockSweep.ScanAndBuild | src/atomic-swap/monero-sweep/index.ts:258-492 | One attempt: the transaction fetched, scanned, and the first output found made into the data to sign, or the first error |
| LockSweep.AttemptSpendsFirstFound | src/atomic-swap/monero-sweep/index.ts:276-298 | The data signed spends the first output the scan found, whose mask and amount open the commitment of the real ring member |
| LockSweep.SignedBytesOpenOutput | miradex-rust/src/monero/sweep.rs:180-264 | The key offset in the bytes of a signed input and the combined spend key, times the base point, are the key in these bytes |
| LockSweep.SignedInputIsVerifiedOutput | src/atomic-swap/monero-sweep/index.ts:276-298 | On one transaction and view key the input signed is the output the lock check verified, with its amount and a key that opens it, if and only if no earlier time-locked output pays the key; otherwise such an output is spent |
| LockSweep.HonestLockIsSweptExactly | src/atomic-swap/monero-sweep/index.ts:258-492 | One attempt on an honest lock, none before it time-locked, signs if and only if every output can be scanned, the amount covers eleven positive fees, and the ring found has sixteen members with the real one committing to the amount |
| LockSweep.UnreducedViewKeyStopsScan | miradex-rust/src/monero/commitment.rs:44-56 | Every honest lock is verified with its view key written as v + L, and the scan of it throws |
| LockSweep.LockedDustComesFirst | src/lib/monero/verify-lock.ts:180-186 | For any keys there is a lock that is verified at output 1 while the scan begins with output 0, of any amount |
| LockSweep.VerifiedLockIsNotSwept | src/lib/monero/verify-lock.ts:180-186 | One such lock: output 1 is verified with the expected 5, the scan begins with output 0, of 1 |
| LockSweep.VerifiedLockIsNotScanned | miradex-rust/src/monero/commitment.rs:44-56 | One lock verified with the expected 5 on which the scan throws |
| Text.DecimalInjective | src/blockchain/quorum-provider.ts:135-137 | Different integers have different numerals |
| Text.LastColonSplits | src/blockchain/quorum-provider.ts:135-137 | A key splits at its last colon in one way |
| Settled.OneForOne | src/blockchain/quorum-provider.ts:81-87 | Each provider that answered gives one value, at its place in the order of the providers, and a rejected one gives none |
| Settled.ReportsAreProviders | src/blockchain/quorum-provider.ts:139-162 | A key has as many reports as there are providers whose answer holds it |
| Settled.DecidingIsFirstReported | src/blockchain/quorum-provider.ts:139-162 | The item that stands for a key is the first with it in the first answer that has one |
| Tally.MergeByKey | src/blockchain/quorum-provider.ts:139-191 | The nested counting loops compute the specified merge, for any key, quorum and filter |
| Tally.TallyCountsReports | src/blockchain/quorum-provider.ts:144-162 | A key's count is the number of lists that report it, however often each repeats it |
| Tally.MergeIsTheQuorumSet | src/blockchain/quorum-provider.ts:139-191 | The merge holds one item for each key with a quorum whose first report passes the filter, each key once |
| Tally.HonestReporter | src/blockchain/quorum-provider.ts:139-191 | With fewer faulty lists than the quorum, an honest list reported whatever reached it |
| Tally.ReportsIgnoreOrder | src/blockchain/quorum-provider.ts:139-191 | Permuting the lists changes no count |
| Tally.DecidingIsFirst | src/verification/thorchain.ts:208-221 | The item kept for a key is the first with it in the first list that has one |
| Quorum.PickQuorumUtxos | src/blockchain/quorum-provider.ts:139-162 | Exactly the outputs that at least quorum providers report, each once, as first reported |
| Quorum.PickQuorumHistory | src/blockchain/quorum-provider.ts:168-191 | Exactly the entries that at least quorum providers report, each once, as first reported |
| Quorum.ReconcileVaults | src/verification/thorchain.ts:203-226 | Exactly the vaults in at least two sources whose first report is neither halted nor paused |
| Quorum.UtxoKeyInjective | src/blockchain/quorum-provider.ts:135-137 | Equal keys are equal outputs, whatever text a provider sends as txid |
| Quorum.HistoryKeyInjective | src/blockchain/quorum-provider.ts:164-166 | Equal keys are equal entries |
| Quorum.VaultKeyInjective | src/verification/thorchain.ts:199-201 | Two vaults with one key are the same (chain, address) pair if and only if their chain names are equally long |
| Quorum.VaultKeyUnambiguousExactly | src/verification/thorchain.ts:199-201 | A vault shares its key with no other pair if and only if its chain name and its address are free of colons |
| Quorum.VaultKeysCanCollide | src/verification/thorchain.ts:199-201 | Two different vaults with one key, both of whose chain names hold a colon |
| Quorum.MergeIgnoresOrder | src/blockchain/quorum-provider.ts:139-191 | The merged keys do not depend on the order of the providers |
| Quorum.MergedIsHonest | src/blockchain/quorum-provider.ts:139-191 | With fewer faulty providers than the quorum an honest one reported every merged entry |
| Quorum.VaultMergeDependsOnOrder | src/verification/thorchain.ts:203-226 | Two orders of the same sources with different merged vaults |
| VaultOrder.MergedIsReturned | src/verification/thorchain.ts:203-226 | A key is returned if and only if two sources report it and its deciding report is live |
| VaultOrder.VaultMergeIgnoresOrderExactly | src/verification/thorchain.ts:203-226 | The merge is the same for every order of the sources if and only if sources reporting the same vault agree on whether it is live |
| Quorum.PickQuorumString | src/blockchain/quorum-provider.ts:89-107 | Succeeds if and only if a quorum of providers sent one value, and returns the first such value |
| Quorum.QuorumStringIsUnique | src/blockchain/quorum-provider.ts:89-107 | The value is unique when twice the quorum exceeds the providers that answered |
| Quorum.QuorumStringIsHonest | src/blockchain/quorum-provider.ts:89-107 | With fewer faulty providers than the quorum an honest one sent the value |
| QuorumNumbers.PickQuorumNumber | src/blockchain/quorum-provider.ts:109-133 | The median of the answers, accepted if and only if a quorum of providers answered within one of it |
| QuorumNumbers.MedianRank | src/blockchain/quorum-provider.ts:109-133 | How many answers lie at or below and at or above the median |
| QuorumNumbers.MedianSplitsProviders | src/blockchain/quorum-provider.ts:109-133 | More than half of the providers that answered are at or below the median, and at least half at or above |
| QuorumNumbers.AcceptedIsNearHonest | src/blockchain/quorum-provider.ts:109-133 | With fewer faulty providers than the quorum, an accepted number is within one of what an honest provider answered |
| QuorumNumbers.MedianIsBetweenProviders | src/blockchain/quorum-provider.ts:109-133 | With fewer faulty providers than half of those that answer, the median lies between the answers of two honest ones |
| QuorumNumbers.AcceptedNumberIsNearHonest | src/blockchain/quorum-provider.ts:109-133 | With fewer faulty providers than the quorum some honest answer is within one of the result |
| QuorumNumbers.MedianIsBetweenHonest | src/blockchain/quorum-provider.ts:109-133 | With fewer than half of the answers faulty the median lies between two honest ones |
| QuorumNumbers.MedianIsSafeExactly | src/blockchain/quorum-provider.ts:109-133 | For n answers of which f may be faulty the median always lies between two honest ones if and only if 2f < n |
| QuorumNumbers.MedianOfTwo | src/blockchain/quorum-provider.ts:109-133 | Of two answers the larger is the median, whoever sent it |
| QuorumNumbers.PickAgreeingTransaction | src/lib/monero/rpc.ts:174-202 | What the first node sent whose data a quorum returned alike, with the median of the confirmations that came with that data; fails if and only if there is none |
| QuorumNumbers.FetchTransactionQuorum | src/lib/monero/rpc.ts:150-202 | Succeeds if and only if a quorum of nodes answered with the same data; the result is what the first node of such a quorum sent, with the median of the confirmations sent with that data |
| QuorumNumbers.AgreedTransactionIsHonest | src/lib/monero/rpc.ts:174-202 | With fewer faulty nodes than the quorum an honest one returned the data |
| QuorumNumbers.ConfirmationsAreSafeExactly | src/lib/monero/rpc.ts:174-202 | Agreed confirmations were always reached by an honest node with the same data if and only if the faulty nodes are fewer than half of the quorum |
| QuorumNumbers.OneLiarConfirms | src/lib/monero/rpc.ts:174-202 | With a quorum of two, one node claiming ten confirmations beside an honest node with none makes the agreed count ten |
| QuorumNumbers.AcceptedQuoteIsNearHonest | src/verification/thorchain.ts:244-278 | An accepted quote is within the tolerance of a range spanned by two honest quotes |
| SwapFlowRun.Flow.Announce | src/engine/flows/swap-flow.ts:175-184 | The method updates the last phase and emits as specified |
| SwapFlowRun.Flow.CreateSwapWithRetry | src/engine/flows/swap-flow.ts:431-483 | The retry loop computes the specified creation: the swap, or the error thrown, with every state shown on the way |
| SwapFlowRun.Flow.FetchDetailWithRetry | src/engine/flows/swap-flow.ts:410-429 | The same for fetching the detail of a resumed swap |
| SwapFlowRun.Flow.AwaitDeposit | src/engine/flows/swap-flow.ts:485-621 | The deposit gate: thrown, cancelled, withheld or shown |
| SwapFlowRun.Flow.Terminal | src/engine/flows/swap-flow.ts:860-911 | The receipt of a terminal status, which `StartTellsTheTruth` and `ResumeTellsTheTruth` spell out |
| SwapFlowRun.Flow.PollUntilDone | src/engine/flows/swap-flow.ts:779-858 | The polling loop computes the specified views |
| SwapFlowRun.Flow.RestrictedStatus | src/engine/flows/swap-flow.ts:337-378 | A restricted status is shown from a context marked restricted |
| SwapFlowRun.Flow.PollRestrictedUntilDone | src/engine/flows/swap-flow.ts:380-408 | The restricted polling loop computes the specified views |
| SwapFlowRun.Flow.TrackRestricted | src/engine/flows/swap-flow.ts:305-335 | A restricted run clears the context and tracks the status |
| SwapFlowRun.Flow.InitialResumePhase | src/engine/flows/swap-flow.ts:625-777 | The first phase of a resumed swap, with the verifier consulted but not gating past the deposit |
| SwapFlowRun.Flow.Handle | src/engine/flows/swap-flow.ts:924-941 | An error shows as cancelled or failed |
| SwapFlowRun.Flow.Start | src/engine/flows/swap-flow.ts:190-237 | A started fresh flow emits exactly the specified states: an address if and only if it was released and only the created one, phases in progress only when validated, and the mark of verification exactly when `VerifiedShownExactly` says |
| SwapFlowRun.Flow.Resume | src/engine/flows/swap-flow.ts:242-299 | A resumed fresh flow emits exactly the specified states: phases in progress only when validated or restricted, nothing sensitive for a restricted swap, and the mark of verification exactly when `ResumedVerifiedExactly` says |
| SwapFlowSafety.PollLoopKeeps | src/engine/flows/swap-flow.ts:779-858 | Polling never widens what a run may show, and takes nothing back |
| SwapFlowSafety.GateKeeps | src/engine/flows/swap-flow.ts:485-621 | The gate shows at most the swap's own address and code |
| SwapFlowSafety.RefusedStartShowsNothing | src/engine/flows/swap-flow.ts:551-584 | When the verifier rejects or throws, no state of the run, through all later polling, holds a deposit address or QR code or is of a phase in progress |
| SwapFlowSafety.AddressShownExactly | src/engine/flows/swap-flow.ts:190-237 | A started run shows an address if and only if it was released, only ever the one the swap was created with, and never another destination or refund address than the user's own |
| SwapFlowSafety.StartProgressIsValidated | src/engine/flows/swap-flow.ts:817-857 | In a started run every confirming, swapping, sending or cancelling state is fully validated |
| SwapFlowSafety.RestrictedRunShowsNothing | src/engine/flows/swap-flow.ts:301-408 | A restricted run never shows an address, a QR code or a verification, whatever is polled later |
| SwapFlowSafety.ResumeProgressIsValidated | src/engine/flows/swap-flow.ts:242-408 | In a resumed run every such state is fully validated or marked restricted |
| SwapFlowPolls.PollPhase | src/engine/flows/swap-flow.ts:779-858 | What a poll announces, by the status the server names and the completeness of the context: it emits if and only if that phase is not the last one, and ends the loop if and only if it is an abort or terminal |
| SwapFlowPolls.PollLoopSays | src/engine/flows/swap-flow.ts:779-858 | The loop shows a state marked verified if and only if some poll that is reached announces another phase than the one before, and the context was marked or that poll or an earlier one brings verification data |
| SwapFlowVerified.FromGateSays | src/engine/flows/swap-flow.ts:485-621 | From the deposit gate on, the swap is shown as verified exactly as the verdict, the QR code, the swap and the polls determine |
| SwapFlowVerified.GateInFull | src/engine/flows/swap-flow.ts:485-621 | The verifier is asked if and only if there is an address and data to check it with; what it throws is thrown, what it refuses shown as refused, and otherwise a deposit is invited if and only if address, code, tokens, destination and provider are there |
| SwapFlowVerified.VerifiedShownExactly | src/engine/flows/swap-flow.ts:190-237 | A started run shows the swap as verified if and only if the verifier accepted it, or the gate lets the flow go on and a poll shows a state with verification data in it or before |
| SwapFlowVerified.RefusedShownExactly | src/engine/flows/swap-flow.ts:551-584 | A refused run shows the swap as verified if and only if a poll that is reached is an abort, the first status in progress or a terminal status other than a second failure, and it or an earlier poll brings verification data |
| SwapFlowVerified.RefusedSwapCanSayVerified | src/engine/flows/swap-flow.ts:798-805 | A swap the verifier refused is shown as verified after one poll that finds it completed with verification data |
| SwapFlowVerified.ResumedVerifiedExactly | src/engine/flows/swap-flow.ts:625-777 | A resumed run shows the swap as verified if and only if it has a detail to follow and the gate, where it decides, or else the first verdict, or a poll with verification data says so |
| SwapFlowVerified.RaisedSwapCanSayVerified | src/engine/flows/swap-flow.ts:677-731 | A resumed swap with its deposit made is shown as verified though the verifier throws |
| SwapFlowOutcomes.StartTellsTheTruth | src/engine/flows/swap-flow.ts:190-237 | Whatever a started run tells is true: an invitation to deposit is for the swap created, with its address, amounts, code and verdict; progress and an end were said by a poll that was made, with its amount, hash and required action |
| SwapFlowOutcomes.ResumeTellsTheTruth | src/engine/flows/swap-flow.ts:242-408 | The same for a resumed run, from the detail it works on and its polls; to a restricted user it tells the status and what is not sensitive |
| SwapFlowOutcomes.StartShowsEnd | src/engine/flows/swap-flow.ts:779-911 | The end that a poll brings is the last phase of a started run, and a completed, refunded or expired swap is shown as that, with what the poll said |
| SwapFlowOutcomes.StartShowsProgress | src/engine/flows/swap-flow.ts:817-857 | A started run that may show progress shows every status under way that a poll brings |
| SwapFlowOutcomes.ResumeShowsEnd | src/engine/flows/swap-flow.ts:242-299 | A swap that has ended when it is resumed is shown as that, with what its detail says |
| SwapFlowOutcomes.ResumeShowsPolledEnd | src/engine/flows/swap-flow.ts:380-408 | The end that a poll brings is the last phase of a resumed run too, restricted or not, and is shown as that |
| SwapFlowOutcomes.PunishedIsNeverShown | src/engine/flows/swap-flow.ts:891-896 | No run, started or resumed, ever shows a swap as punished |
| SwapFlowOutcomes.PunishedPollIsPassedOver | src/types/status.ts:19-25 | A poll that finds the swap punished announces nothing and does not end the loop |
| SwapFlowRetries.CreationEnds | src/engine/flows/swap-flow.ts:431-483 | Creating a swap ends with the first attempt that is not retried, or with the error of the last; an attempt is retried exactly after a network error, or a server error of status 429 or from 500 on that is not permanent, if no abort is seen after the pause |
| SwapFlowRetries.FetchEnds | src/engine/flows/swap-flow.ts:410-429 | The same for fetching the detail of a resumed swap |
| SwapFlowRetries.ErrorIsShown | src/engine/flows/swap-flow.ts:924-941 | A flow that throws shows one more state: cancelled if it was cancelled or is seen aborted, else failed, with the error as its reason and text |
| SwapFlowRetries.StartBegins | src/engine/flows/swap-flow.ts:190-237 | A started run first shows the proof of work with what the user typed, and the swap's number once it is created |
| SwapFlowRetries.AbortedStartIsCancelled | src/engine/flows/swap-flow.ts:190-237 | A run seen aborted once the swap is created is cancelled |
| Retry.WithRetry | src/lib/retry.ts:54-133 | The loop with its counters computes the specified run |
| Retry.RunIsSound | src/lib/retry.ts:54-133 | Returns the first success, throws the first fatal error unretried, at most maxBounded+1 bounded failures, no call after an observed abort |
| Retry.TurnIsSound | src/lib/retry.ts:54-133 | One attempt keeps all of that |
| Retry.EachCategory | src/lib/retry.ts:74-128 | What each category of error does: network and server errors are retried without end, rate limits, bounded client errors and unknown errors until there are more than allowed, the others thrown at once; every retry sleeps first |
| Retry.BackoffIsMonotone | src/lib/retry.ts:135-139 | The backoff never shrinks and never exceeds its cap |
| Retry.BackoffDoubles | src/lib/retry.ts:135-139 | The first wait is the base, each next one doubles up to the cap, and from the thirty-first it stays |
| Retry.SleepsAreMonotone | src/lib/retry.ts:54-139 | The sleeps of a run are nondecreasing and capped |
| Retry.RunTerminates | src/lib/retry.ts:54-133 | The loop ends whenever network and server failures are finitely many |
| Json.ReadsBack | src/atomic-swap/snapshot.ts:119-123 | A reader gets every value back from its JSON text (RFC 8259, sections 4 and 7), whatever delimiter follows |
| Json.PrettyReadsBack | src/atomic-swap/drive.ts:858-858 | A reader gets every value back from its indented text, with white space before it |
| Json.CharsReadBack | src/atomic-swap/snapshot.ts:119-123 | Every string of UTF-16 units, lone surrogates included, reads back from its escaped form |
| Json.EscapesAreShortest | src/atomic-swap/snapshot.ts:119-123 | A unit is written as itself where it may be, with a two-unit escape where there is one, and else with four hexadecimal digits in lower case |
| Json.NumberReadsBack | src/atomic-swap/snapshot.ts:119-123 | Every integer reads back from its numeral |
| Json.SerializeInjective | src/atomic-swap/snapshot.ts:119-123 | Different values have different texts |
| Canonical.SortedByKey | src/atomic-swap/snapshot.ts:130-133 | Sorting members by code units orders distinct keys strictly |
| Canonical.LessIsLexicographic | src/atomic-swap/snapshot.ts:130-133 | One key is before another if and only if its unit is less where they first differ, or it is a proper prefix |
| Canonical.CanonicalOrder | src/atomic-swap/snapshot.ts:125-136 | In a canonical object array indices stand first, by number, and the other keys follow in that order |
| Canonical.OneAscendingArrangement | src/atomic-swap/snapshot.ts:130-133 | Members in key order are determined by which members they are |
| Canonical.SortedDecides | src/atomic-swap/snapshot.ts:125-136 | Sorting keys deeply makes two values equal if and only if they differ in member order only |
| Canonical.CanonicalTextDecides | src/atomic-swap/snapshot.ts:119-136 | The canonical texts are equal if and only if the values are, up to member order at every depth |
| Canonical.ParseUndoesStringify | src/atomic-swap/snapshot.ts:143-146 | Parsing a written value gives the same value, for keys of every kind |
| Canonical.ParseIgnoresIndentation | src/atomic-swap/drive.ts:858-858 | The text written with any indentation parses as the compact one does |
| Snapshot.BuiltSnapshotVerifies | src/atomic-swap/snapshot.ts:99-146 | Every built snapshot passes the integrity check |
| Snapshot.ReloadedSnapshotVerifies | src/atomic-swap/snapshot.ts:99-146 | It still passes after being written with any indentation and parsed |
| Snapshot.ReloadedSnapshotCarriesInput | src/atomic-swap/snapshot.ts:99-117 | After writing with any indentation and parsing, every field of the input is found under its own name |
| Snapshot.NamesAreSpelled | src/atomic-swap/snapshot.ts:99-117 | The names of the fields, the version 2, the client name and the default phase marker, letter by letter |
| Snapshot.ReorderedSnapshotVerifies | src/atomic-swap/snapshot.ts:138-146 | Reordering members at any depth does not break the check |
| Snapshot.ChangedSnapshotFailsExactly | src/atomic-swap/snapshot.ts:138-146 | With the hash injective, an object with the digest of an intact snapshot passes if and only if it differs in member order only |

## Left out

- HTTP, schema parsing, transports, timers, logging, QR drawing and storage: their results are inputs of the model.
- Hashing, signing, adaptor signatures, the DLEQ and CLSAG proofs, sighashes and address coding: arbitrary functions, with injectivity only as a named hypothesis.
- PSBT serialisation and wallet signing: the lock transaction stands for the PSBT, and its witnesses are not part of its id.
- Hexadecimal text: keys and points are byte strings, digests are compared as strings, and lenient hex parsing is not modelled.
- Floating point: gamma samples are arbitrary integers, BTC amounts come in as satoshis, and Monero amounts are integers below 2^53, where the code's numbers are exact.
- Points outside the prime-order subgroup: Monero points are the multiples of the base point.
- Time-based relative locks of BIP 68: no transaction of the graph uses them, and the ledger never lets one through.
- The wallet and the signatures of `signRefund`, and `isLowS`: straight-line calls into the signing library.
- The signing internals after the binary form is written, including the fee rate the signer derives from the fee.
- The outer fifteen attempts of `sweepMonero`, its broadcast and its notification of the server: each attempt is a run of `ScanAndBuild`.
- `AtomicFlow`, the address validators, keystore migration and configuration: callbacks and single branches.
- The internals of `verifyDepositAddress`: its verdict, or that it throws, is an input.
- Flow fields that are never set by `SwapFlow` (keystore id, deposit memo), timestamps of verification results, the poll key (it only gates a debug line), and the field list in a validation message.
- Fractional JSON numbers and values JSON cannot hold: the snapshot has integers, strings, nulls, arrays and objects.
- Decoys.Pick: the bound is for nondecreasing counts; on others the result of the library's binary search is unspecified, and here arbitrary.
- Quorum.MergeIgnoresOrder: says which keys are merged, not in which order they come out; the order follows the first provider that reports each.
- Sweep.SignedDataIsSound: the ring member at the real index is tied to the real output by its commitment, as in the code, which does not compare the two keys.
- DriverLoop.SwapDriver.MaybeWriteSnapshot: leaves out the identifiers, the maker's addresses, the server status, the capture time and the Monero restore height of the snapshot, which are copied into it.
