# Replicated-state contracts: a model and its proofs

The repository holds contracts that hosts of a gossip network run on states they do not own. A host is handed bytes by
anyone, in any order, and must keep a state that every other host would also keep. Five families do real work:

- the **Set** (`set/`): signed slots, one best decision per slot, cut to a quota per signer and a capacity per tier, and
  a bounded list of denied keys;
- the **Bag** (`bag/`): the best M proof-of-work pointers;
- the **Register** (`register/`): one signed decision under one key or k of n, with proof of forks;
- the **Tail** (`tail/`): a writer's buffer in front of a tree, moved by signed deltas and flushes;
- the **Site** (`site/`) and the **Pack** (`block/src/pack.rs`): a web bundle that follows a Register record, and one
  encoding per set of blocks.

This project models their parsers, encoders, merges, late verification, summaries and update loops, and proves what the
design relies on: merges that do not depend on order over whole runs, encodings that are bijections, late verification
that is exact, states that stay valid whatever arrives, and the places where the code falls short of that, each with its
exact condition.

## How it is written

- `Bytes`, `ByteOrder`, `Lists`, `Sorting`, `TopK`, `Bits` and `Doors` hold what the contracts share: integers on the
  wire, Rust's byte order, stable sort and dedup, keeping the best m of a set, bit masks, the batch an update brings.
  `Sample` holds concrete primitives for the inputs that show a claim to fail, and `TailWriter` the
  writers that show what the Tail's theorems ask for can be met. `LaminarCut` is the theory behind the
  Set's cut.
- What each contract decides is stated a second time without its own functions: `SetAdmission`, `RegisterAdmission`,
  `SiteAdmission` and `BagPreimages` say exactly what validation accepts in bytes hashed and signed, numbers and counts;
  `SetOrder`, `RegisterProofs`, `TailLog` and `TailDoors` say what wins and what is taken; `SetPreimages` and
  `BagPreimages` trace every name to the bytes it hashes; `Formats` spells each encoding from its first byte to its last.
- Each contract has a wire module, a codec or merge module, and a module for its doors. A pure function says what is
  computed; where the source runs a loop over a buffer, a method with that loop is proved equal to the function, and the
  theorems are about the function. The two cursors of the source are classes (`TailCursor.Cursor`, `SiteDoors.Reader`).
- Encodings are written `Put(x, rest)`: the bytes of `x` in front of `rest`. Reading returns what is left.
- BLAKE3, Ed25519 verification, point decompression, block ids and the tree library's node check are function VALUES
  (`Crypto`, `Pack.Rules`); every theorem holds for all of them. Where a law needs that two things do not collide, that
  is a hypothesis over the values in play (`NoSlotCollision`, `MentionsAreFaithful`, `NoCollision`, `NoBodyCollision`,
  `NoWebCollision`, `NoIdCollision`), never an axiom. `SetPreimages` and `BagPreimages` derive those of the Set
  and the Bag from `HashInjective` on the byte strings that are actually hashed.
- "The writer signs one body per seq" (`TailHost.OneBodyPerSeq`) is a hypothesis over the signed parts the candidates
  carry, and nothing is asked of signatures that nobody sends. `TailHost.StepExact` shows it is also needed, step by step;
  `TailWriter` meets it for every authority and every legal log, and `TailWriter.QuorumTail` concretely for every k of n.

## Where the code and its documentation part

- **Register summaries** (`register/src/merge.rs:15-17`, `register/src/lib.rs:76-89`). Synced replicas are promised one
  summary. A summary hashes the PAIR of conflicting decisions, while a merge settles only the evidence KEY.
  `KeyForcesPair` proves that a key forces its pair exactly when the register was ended twice at one seq; every other
  fork shares its key with a different pair, an ordinary fork of two live values included (with the fork in which one of
  the two ended the register). So `SyncedSummaries` gives one summary in that case and without evidence,
  `OtherPairStaysApart` shows the promise failing in every other, and `SyncedApart` gives two concrete pairs of valid,
  synced replicas whose summaries differ. The laws here are therefore stated on the decision and the key.
- **`update` is not associative** (`register/src/merge.rs:5-10` says so). `UpdateAssociates` is the exact condition on the
  three states, `MiddleHighest` and `NoForkNoOrder` two cases in which no order misses anything, `UpdateNotAssociative`
  three valid states on which the orders differ.
- **Set summaries** (`set/src/wire.rs:373-378`) hash a decision without its slot, so one round can miss a slot whose
  decision the peer holds in another slot. `OneRoundExact` is the condition on the two states, denials included,
  `DoorsOneRound` the same through the doors, `OneRoundIsNotEnough` a concrete pair of states. `RoundLosesTwins` says it
  without hashes: a round loses exactly the news whose decision the peer holds already, in another slot.
- **Tail size bound** (`tail/src/lib.rs:71`) leaves 1,024 bytes for the signed part; 16 signatures need 1,067.
  `ClosureExact` proves that well-shaped tails always read back exactly when at most 15 signatures are required,
  `HostClosureExact` the same of what a host stores after whatever it is offered. `SixteenDoesNotClose` follows one accepted
  delta to a stored tail nobody can read, and `SixteenKeys` is such a host with its 16 keys and its delta.
- **Site size bound** (`site/src/lib.rs:50`). A merge can add evidence to a site that is already at the bound.
  `MergeReadsBack` is the condition on the two sites, `FullSitesFork` a concrete fork of a site that fills the bound,
  `OverfullForgets` what the host then does, `ForkIsForgotten` a host that falls back to version 0 that way.
- **Set order** (`set/src/wire.rs:330`): the one-line summary of the order omits the tombstone; the code ranks sealed, then
  newer, then a delete, then the lower payload hash, and so does `SetWire.Outranks`.
- `seq + 1` on a held `seq` of 2^64 - 1 (`tail/src/lib.rs:131`) is modelled without wrap-around. A wrap to 0 is refused
  as well, because a delta numbered 0 is never applied.

## Model

| member | source | states |
|---|---|---|
| ByteOrder.CountLeadingZeros | bag/src/wire.rs:128-137 | the byte loop returns the number of leading zero bits |
| ByteOrder.LeadingZerosMeaning | set/src/wire.rs:563-575 | that many top bits are clear and the next is set, as a bound on the big-endian number |
| ByteOrder.WorkOrderIsNameOrder | bag/src/wire.rs:217-219 | ordering by leading zeros descending, then hash ascending, is lexicographic order of the names |
| ByteOrder.KeyIsCanonical | register/src/wire.rs:38-47 | the limb loop answers true exactly when the value without its sign bit is below the field modulus |
| ByteOrder.CanonicalKeyMeaning | register/src/wire.rs:28-47 | that modulus is 2^255 - 19, as section 5.1.3 of RFC 8032 requires |
| ByteOrder.PValue | register/src/wire.rs:30-36 | the limbs written in the source spell 2^255 - 19 |
| LaminarCut.CutHereditary | set/src/merge.rs:43-84 | a slot kept from a union is kept from every subset of the union that contains it |
| LaminarCut.CutBlocks | set/src/merge.rs:43-84 | a dropped slot is outranked by a full quota or a full tier of KEPT slots |
| LaminarCut.CutIsGreedy | set/src/merge.rs:58-84 | kept means: neither its signer nor its tier is full of better kept slots |
| LaminarCut.CutAbsorbs | set/src/merge.rs:43-57 | cutting a part first never changes the cut of the whole |
| LaminarCut.KeptBlocksAnywhere | set/src/merge.rs:43-57 | what a set's cut drops, every set between that cut and the set drops |
| LaminarCut.LoadMonotone | set/src/merge.rs:43-57 | more slots never lighten a tier after the quota pass |
| LaminarCut.TiersApart | set/src/wire.rs:573-580 | what the cut keeps of one tier depends on nothing offered in another |
| LaminarCut.CutBounds | set/src/merge.rs:43-57 | the cut respects every signer's quota and every tier's capacity |
| TopK.TopAbsorbs | bag/src/merge.rs:27-46 | keeping the best m of a part first never changes the best m of the whole |
| SetWire.OutranksTotal | set/src/wire.rs:330-365 | the four-field decision order is total: only equal decisions tie |
| SetWire.OutranksTransitive | set/src/wire.rs:363-365 | the decision order is transitive |
| SetWire.RankIsOrder | set/src/wire.rs:636-642 | the comparison by tier, work and name is one strict numeric order |
| SetCodec.ParseOfEncode | set/src/wire.rs:659-770 | every state within the parser's bounds and orders parses back from its encoding |
| SetCodec.EncodeOfParse | set/src/wire.rs:697-770 | every accepted byte string is the encoding of the canonical state it parses to |
| SetCodec.ParseExact | set/src/wire.rs:674-690 | full validation accepts exactly the encodings of valid states |
| SetCodec.EncodeFits | set/src/lib.rs:50-59 | no canonical state outgrows the bound checked before parsing |
| SetCodec.ReadItemFront | set/src/wire.rs:503-561 | an item with or without a capability reads back in front of anything |
| SetCodec.ReadItemGives | set/src/wire.rs:520-561 | an item that reads has one spelling: no unknown flag bit, no second length |
| SetAdmission.ItemExact | set/src/wire.rs:455-500 | an item verifies exactly when it is within its limits, paid for, signed over its spelled-out bytes, and its signer is the owner or holds the owner's signed grant for this bucket of this set |
| SetAdmission.ValidationExact | set/src/wire.rs:674-690 | exactly the states validation accepts, in bytes hashed and signed, rising numbers and sizes of sets |
| SetAdmission.HostAccepted | set/src/lib.rs:151-190 | whatever a host is sent, what it holds afterwards is accepted in those terms |
| SetPreimages.ParamsInjective | set/src/wire.rs:194-216 | one encoding names one set |
| SetPreimages.GrantsNameOneSet | set/src/wire.rs:227-236 | two sets take each other's grants exactly when they differ in nothing but the bucket |
| SetPreimages.SlotsNameOneKey | set/src/wire.rs:412-420 | unless the hash collides on the bytes named, one slot name is one signer and one item key |
| SetPreimages.MentionsNameDecisions | set/src/wire.rs:373-378 | unless the truncated hash collides on the bytes mentioned, a mention tells any two decisions apart |
| SetPreimages.DecisionsNameVersions | set/src/wire.rs:398-405 | equal decisions are equal times, flags and payloads |
| SetMerge.Cut | set/src/merge.rs:58-84 | the loop with a counter per signer and per tier keeps what the one-pass rule keeps |
| SetMerge.CutIsTwoPass | set/src/merge.rs:43-84 | for every list of unique slots, what is kept is what the two passes keep: signers first, tiers after |
| SetMerge.GreedyStep | set/src/merge.rs:58-84 | each step of the pass decides its slot as the two-pass filter does |
| SetMerge.OfferAllFinds | set/src/merge.rs:119-163 | the fold holds, for every slot, the better of the two sides; an equal decision keeps the first witness |
| SetMerge.JoinStates | set/src/merge.rs:119-163 | the join as it runs: denials, best per slot, cut, sort |
| SetMerge.JoinHeld | set/src/merge.rs:119-163 | the join keeps the two-pass cut of the union, each slot with the better side's entry |
| SetMerge.JoinDenyFinds | set/src/merge.rs:130-145 | the lowest 64 denied keys of the union, without the owner's, each with a witness that was offered |
| SetMerge.JoinCanonical | set/src/merge.rs:119-163 | every quota, tier, denial and order bound holds on the output |
| SetMerge.JoinVerified | set/src/merge.rs:119-163 | joining verified states gives a verified state |
| SetMerge.CutShape | set/src/merge.rs:58-84 | what is kept was offered, is sorted and is within both bounds |
| SetRuns.RunSays | set/src/merge.rs:86-163 | any tree of joins of parsed states says: best decision per slot over ALL inputs, cut once, lowest 64 denied keys; and it parses |
| SetRuns.RunsAgree | set/src/merge.rs:86-163 | runs that were offered the same decisions and denials, however cut into states, hold the same facts and show the same visible slots |
| SetRuns.SaysByOffers | set/src/merge.rs:86-163 | what a state must say depends only on the decisions and denials offered, not on how they were cut into states |
| SetRuns.JoinLaws | set/src/merge.rs:86-163 | the join is commutative, associative and idempotent on facts |
| SetRuns.EvictedStaysOut | set/src/merge.rs:43-57 | a slot some of the inputs suffice to evict is absent from every run over at least those inputs |
| SetRuns.NothingResurrected | set/src/wire.rs:330-365 | what a run holds for a slot is outranked by nothing ever offered for it: no seal broken, no delete or later version undone |
| SetOrder.NewestWins | set/src/wire.rs:330-365 | over any run what is held for a slot has, among all ever offered, the seal, then the highest time, then the delete, then the lowest payload hash |
| SetOrder.HostNewestWins | set/src/merge.rs:119-165 | the same at a host, against every verified item of every candidate |
| SetOrder.HeldExactly | set/src/merge.rs:58-84 | a run holds a slot exactly when it was offered and fewer than quota of its signer's and fewer than M of its tier's held slots have lower names |
| SetOrder.TiersDoNotCompete | set/src/wire.rs:573-580 | runs offered the same in one tier hold the same there, whatever the other tier was offered |
| SetRuns.JoinEmpty | set/src/merge.rs:119-163 | joining with nothing changes nothing, witnesses included, from either side |
| SetRuns.CollisionFreeRunsAgree | set/src/merge.rs:86-163 | the same with one hypothesis only: no two signers in play share a slot name |
| SetHost.CheckLimits | set/src/wire.rs:808-825 | counting tiers and walking the sorted signers for a long run decides both limits exactly |
| SetHost.ReadState | set/src/wire.rs:697-770 | the parser as its loops run computes the specified parse |
| SetHost.EncodeState | set/src/wire.rs:659-671 | the encoder's loops write the specified encoding |
| SetHost.CollectUseful | set/src/lib.rs:101-132 | the loop that verifies only slots that could win keeps exactly those that could win and verify |
| SetHost.AbsorbCandidate | set/src/lib.rs:101-132 | the late-verifying merge as it runs |
| SetHost.AbsorbIsJoin | set/src/lib.rs:82-132 | absorbing equals joining the candidate's verified part, witness for witness |
| SetHost.AbsorbCloses | set/src/lib.rs:101-132 | from a valid state, after any parsed candidate, the result parses, verifies and fits |
| SetHost.SecondWitnessIsNoOp | set/src/lib.rs:101-132 | a candidate that brings only new signatures leaves the state as it is |
| SetHost.UpdateState | set/src/lib.rs:151-180 | the update loop absorbs the candidates in order; unreadable ones are ignored |
| SetHost.UpdateCloses | set/src/lib.rs:151-180 | a host with a valid state answers any bytes at all with a valid state within the bound |
| SetHost.HostIsRun | set/src/lib.rs:151-180 | a host's history of candidates is one run of joins over their verified parts |
| SetHost.HostsConverge | set/src/lib.rs:151-180 | hosts given the same decisions and denials agree, whatever the order, batches, states, deltas, repetitions and junk |
| SetSync.HashDenied | set/src/merge.rs:208-214 | feeding the hasher key by key hashes the denied keys in order and no signature |
| SetSync.SummarizeState | set/src/merge.rs:183-204 | the summary as it is built |
| SetSync.SummaryRoundTrip | set/src/merge.rs:183-272 | a canonical state's summary reads back as what it claims |
| SetSync.SummaryHas | set/src/merge.rs:274-279 | the peer is taken to know exactly the decisions some slot of it mentions |
| SetSync.SummaryBounded | set/src/merge.rs:229-263 | an accepted summary is within both tier capacities and its counts tile its truncations |
| SetSync.DeltaParses | set/src/merge.rs:287-310 | a delta is itself a valid set, within the size bound |
| SetSync.OneRoundSync | set/src/merge.rs:281-305 | without a mention or denial-hash collision, merging the delta leaves byte for byte what merging the whole state would |
| SetSync.NewsSurvives | set/src/merge.rs:119-163 | the slots a merge takes from the sender are those the cut of both slot sets keeps with a decision that beats the peer's |
| SetSync.SyncExact | set/src/wire.rs:373-378 | one round carries every slot across if and only if none of those is mentioned already under another name |
| SetSync.SyncDenyExact | set/src/merge.rs:287-294 | one round carries the denials across if and only if equal hashes leave the peer no new denial |
| SetSync.OneRoundExact | set/src/merge.rs:281-305 | one round is the whole merge exactly when no slot and no denial is lost |
| SetSync.DoorsOneRound | set/src/lib.rs:191-209 | absorbing the bytes sent equals absorbing the whole state's bytes under exactly that condition |
| SetSync.UnreadableSummary | set/src/lib.rs:200-203 | an unreadable summary is answered with the whole state and loses nothing |
| SetSync.SyncedSendsNothing | set/src/merge.rs:287-306 | a peer that holds every decision and denies the same keys is sent no bytes |
| SetPreimages.RoundLosesTwins | set/src/wire.rs:373-378 | with no hash collision, one round is the whole merge exactly when no news is held by the peer in another slot |
| SetSync.EqualDecisionIsMissed | set/src/wire.rs:373-378 | a slot whose decision the peer holds in another slot is never carried across |
| SetSync.OneRoundIsNotEnough | set/src/wire.rs:373-378 | two concrete valid sets for which a round through the doors loses a slot that the whole state would bring |
| BagWire.ParamsExact | bag/src/wire.rs:52-90 | one encoding per parameter set |
| BagWire.RankIsOrder | bag/src/wire.rs:217-219 | the rank of pointers with derived work is one strict numeric order |
| BagWire.ParseExact | bag/src/wire.rs:229-277 | validation accepts exactly the encodings of valid bags |
| BagWire.EncodeFits | bag/src/lib.rs:95-102 | no valid bag outgrows the bound checked before parsing |
| BagWire.ReadBag | bag/src/wire.rs:249-277 | the parse loop computes the specified parse |
| BagWire.EncodeBag | bag/src/wire.rs:229-236 | the encode loop writes the specified encoding |
| BagPreimages.NamesNameOnePointer | bag/src/wire.rs:117-125 | unless the hash collides on the bytes named, one name is one payload and one nonce |
| BagPreimages.ValidationExact | bag/src/wire.rs:249-278 | exactly the bags validation accepts: at most M, by rising name, each name the hash of its spelled-out bytes and worth its price |
| BagPreimages.HostAccepted | bag/src/lib.rs:140-168 | whatever a host is sent, what it holds afterwards is accepted in those terms |
| BagMerge.JoinBags | bag/src/merge.rs:27-46 | extend, sort, dedup and truncate leave the best M of the union, in order and at most M |
| BagMerge.JoinKeepsTop | bag/src/merge.rs:27-46 | the join keeps exactly the best M pointers of the union |
| BagMerge.RunKeepsTop | bag/src/merge.rs:27-46 | any tree of joins keeps exactly the best M of everything offered, and stays valid |
| BagPreimages.RunKeepsBest | bag/src/merge.rs:27-46 | a run holds a pointer exactly when it was offered and fewer than M offered ones have lower names, unless the hash collides on what was offered |
| BagMerge.RunsAgree | bag/src/merge.rs:27-46 | runs offered the same pointers end in the same bag, byte for byte |
| BagMerge.JoinLaws | bag/src/merge.rs:27-46 | commutative, associative and idempotent on whole states |
| BagMerge.SummarizeBag | bag/src/merge.rs:61-82 | the summary as it is built, for a full, partial or empty bag |
| BagMerge.SummaryRoundTrip | bag/src/merge.rs:61-138 | a valid bag's summary reads back as what it claims |
| BagMerge.SummaryBounded | bag/src/merge.rs:98-138 | an accepted summary is within the capacity, its count is the number of truncations, full means at M |
| BagMerge.UnwantedRanksLast | bag/src/merge.rs:152-165 | what a full peer does not want ranks behind everything it keeps, although work is clamped to a byte |
| BagMerge.UnwantedLoses | bag/src/merge.rs:152-165 | such a pointer would not survive the merge |
| BagMerge.SentIsWanted | bag/src/merge.rs:153-179 | every pointer sent is new to the peer and would stay in its bag |
| BagMerge.SyncedSendsNothing | bag/src/merge.rs:168-179 | a peer that holds everything is sent no pointer |
| BagMerge.OneRoundExact | bag/src/merge.rs:140-179 | merging the delta equals merging the whole bag exactly when no pointer the merge keeps is taken for another of its truncation |
| BagMerge.DoorsOneRound | bag/src/lib.rs:183-200 | the same through the doors: the bytes sent, absorbed, against the whole state's bytes |
| BagMerge.UnreadableSummary | bag/src/lib.rs:183-200 | an unreadable summary is answered with the whole bag and a peer loses nothing |
| BagMerge.OneRoundSync | bag/src/merge.rs:168-179 | without a collision of names or truncations, merging the delta equals merging the whole bag |
| BagMerge.Update | bag/src/lib.rs:140-169 | the update loop joins every readable candidate of the batch in order, state before delta |
| BagMerge.UpdateCloses | bag/src/lib.rs:140-169 | a host with a valid bag answers any bytes with a valid bag |
| BagMerge.HostIsRun | bag/src/lib.rs:140-169 | a host's history of candidates is one run of joins |
| BagMerge.HostKeepsTop | bag/src/lib.rs:140-169 | a host holds exactly the best M of everything readable it was ever given |
| BagMerge.HostsConverge | bag/src/lib.rs:140-169 | hosts given the same pointers hold the same bag, byte for byte |
| Bits.MaskFindsStrayBits | register/src/wire.rs:246-255 | the downward-shifted mask finds exactly the bitmaps with a bit outside the keyset, n = 16 included |
| RegisterWire.ParamsExact | register/src/wire.rs:102-139 | one encoding per parameter set, keys strictly sorted and usable |
| RegisterWire.ReadParams | register/src/wire.rs:102-139 | the parser with its loop over the keys computes the specified parse |
| RegisterWire.SortedKeysDistinct | register/src/wire.rs:119-125 | no key stands twice in a keyset |
| RegisterWire.SelectedIndices | register/src/wire.rs:242-266 | an accepted bitmap selects exactly k strictly increasing indices, and the verifier walks exactly their keys |
| RegisterWire.ThresholdMeaning | register/src/wire.rs:242-309 | `verify` true means k different members signed, each matched to its own signature |
| RegisterWire.MessageNamesDecision | register/src/wire.rs:144-155 | a signed message names one register and one decision |
| RegisterAdmission.MessageNamesRegister | register/src/wire.rs:144-155 | so no signature speaks for a second register, unless the hash collides on the two encodings |
| RegisterAdmission.AuthorityExact | register/src/wire.rs:102-142 | exactly the accepted authorities: one usable key, or 1 to k to n to 16 usable keys in rising order |
| RegisterAdmission.BlockExact | register/src/wire.rs:242-267 | a block is well-shaped exactly when its bitmap names k of the n keys and no other, with k signatures |
| RegisterAdmission.SignatureExact | register/src/wire.rs:291-315 | a part verifies exactly when each named key signed the spelled-out bytes, its signature in its own place |
| RegisterWire.OutranksTotal | register/src/wire.rs:177-179 | the decision order is total |
| RegisterCodec.ParseExact | register/src/wire.rs:598-660 | one encoding per state for one key and every k of n, with or without evidence, verified or not |
| RegisterAdmission.ValidationExact | register/src/wire.rs:618-634 | exactly the states validation accepts: records true of their value, evidence of a fork in spelled-out terms, all signed |
| RegisterCodec.RecordHeadAgrees | register/src/wire.rs:536-578 | the reader without params agrees with the parser on every accepted byte string |
| RegisterCodec.EncodeFits | register/src/lib.rs:35-43 | the size guard never refuses a state |
| RegisterCodec.SignedLength | register/src/wire.rs:213-216 | a signed part has one length per authority |
| RegisterMerge.KeyMeaning | register/src/wire.rs:479-497 | exactly what an evidence key remembers of a pair, and what it forgets |
| RegisterMerge.KeyForcesPair | register/src/wire.rs:479-497 | a key forces its pair exactly when the register was ended twice at one seq |
| RegisterMerge.JoinLaws | register/src/merge.rs:36-63 | the join is a semilattice on decisions and evidence keys, idempotent on bytes |
| RegisterMerge.JoinCommutesOnPairs | register/src/merge.rs:51-57 | on the pairs themselves it commutes exactly when equal keys mean equal pairs |
| RegisterMerge.KeysCollide | register/src/wire.rs:486-497 | concrete valid states, ended twice and ordinary forks, with one key and different pairs |
| RegisterMerge.UpdateAssociates | register/src/merge.rs:5-10 | the decision is always associative; the whole update exactly when both associations end with the same lowest proof among the held ones and the forks each looks at |
| RegisterMerge.MiddleHighest | register/src/merge.rs:5-10 | with the highest decision in the middle no order misses a fork |
| RegisterMerge.NoForkNoOrder | register/src/merge.rs:5-10 | without a conflict there is none to miss |
| RegisterMerge.UpdateNotAssociative | register/src/merge.rs:72-84 | three concrete valid states of which one order proves a fork another never looks at |
| RegisterMerge.UpdateDecision | register/src/merge.rs:65-84 | update's record is the join's; its key is the minimum of both keys and the detected one, in the order that `RegisterProofs.KeyInNumbers` states in numbers |
| RegisterProofs.KeyInNumbers | register/src/wire.rs:484-497 | the evidence order in numbers: both ends first, then the lower seq, the higher seq, the lower hash, the higher hash |
| RegisterProofs.UpdateKeepsStrongest | register/src/merge.rs:48-84 | an update leaves evidence exactly when either side had some or the two records prove a fork, and it is at least as strong as each |
| RegisterMerge.EvidenceSticks | register/src/merge.rs:48-57 | held evidence never disappears and its key never rises |
| RegisterMerge.AbsorbIsUpdates | register/src/lib.rs:104-151 | late verification leaves byte for byte what updating with the verified record, then the verified evidence, leaves |
| RegisterMerge.AbsorbAgreesWithEager | register/src/lib.rs:104-151 | on a verified candidate it agrees with the eager update on record and key |
| RegisterMerge.AbsorbChanges | register/src/lib.rs:104-151 | the state changes exactly when a part is useful and really signed |
| RegisterMerge.SecondWitnessIsNoOp | register/src/lib.rs:104-151 | a candidate that brings only new signatures changes no byte |
| RegisterMerge.AbsorbCloses | register/src/lib.rs:104-151 | from a valid state the result encodes, parses, verifies and fits |
| RegisterGossip.RunGood | register/src/merge.rs:65-84 | over any run of candidates and syncs each record is the maximum of its causal past, each proof pairs two conflicting decisions of it, and every state is verified |
| RegisterGossip.RunFromNothing | register/src/lib.rs:194-225 | the same for replicas that start empty |
| RegisterGossip.RunStands | register/src/merge.rs:32-84 | over any run proofs stay and never rise, decisions never fall, terminals stay, and a changed terminal is a proved fork |
| RegisterProofs.RunRises | register/src/merge.rs:32-84 | over any run, in numbers, decisions never fall and proofs never weaken |
| RegisterProofs.RunHoldsBest | register/src/merge.rs:32-84 | from nothing, each replica ends at or above every decision of its past in numbers, with a proof at least as strong as every proof of it |
| RegisterGossip.SamePastSameDecision | register/src/merge.rs:32-48 | one causal past, one decision |
| RegisterGossip.QuietPairAgrees | register/src/merge.rs:59-84 | an exchange that changes neither side leaves both saying the same |
| RegisterGossip.QuietSystemAgrees | register/src/merge.rs:59-84 | when all-pairs exchange changes nothing, all replicas agree on decision and key |
| RegisterGossip.FirstRound | register/src/merge.rs:32-84 | one gather-and-scatter round leaves one decision |
| RegisterGossip.TwoRoundsAreQuiet | register/src/merge.rs:5-17 | two rounds, from any state of any run, leave one decision and one key, and no exchange changes a byte |
| RegisterGossip.AgreedExchangeIsJoin | register/src/merge.rs:65-84 | once decisions agree, an exchange is the join |
| RegisterHost.SummaryExact | register/src/lib.rs:66-101 | equal summaries mean the same decision and the same PAIR of conflicting decisions |
| RegisterHost.SyncedSummaries | register/src/merge.rs:15-17 | synced replicas agree and are quiet; they report one summary exactly when their pairs are equal, and always without evidence or when ended twice at one seq |
| RegisterHost.OtherPairStaysApart | register/src/merge.rs:15-17 | for every other proof there is a pair of synced states that stay apart once the other pair is signed |
| RegisterHost.SyncedApart | register/src/merge.rs:15-17 | two concrete pairs of valid synced states with different summaries |
| RegisterHost.PoliciesAgree | register/src/lib.rs:157-176 | whenever the eager policy answers, the late one does, with one record and one key |
| RegisterHost.UpdateState | register/src/lib.rs:194-225 | the update loop absorbs every readable candidate of the batch in order, state before delta |
| RegisterHost.UpdateCloses | register/src/lib.rs:194-225 | a host with a valid register answers any bytes with a valid register |
| RegisterHost.HostIsReplica | register/src/lib.rs:194-225 | a host's update loop is a gossip run of one replica, its past the records that verified |
| RegisterHost.HostsConverge | register/src/lib.rs:194-225 | hosts that start empty hold the highest verified decision ever given, whatever the order |
| RegisterAdmission.HostAccepted | register/src/lib.rs:194-225 | whatever a host is sent, what it holds is signed, true of its value and at or above every verified record given, in numbers |
| TailCursor.Cursor.Advance | tail/src/body.rs:75-79 | a read past the end fails and moves nothing |
| TailCursor.Cursor.Key | tail/src/body.rs:95-99 | a key of forbidden length is no key |
| TailCursor.Cursor.Value | tail/src/body.rs:100-104 | a value over its cap is no value |
| TailCursor.ReadBody | tail/src/body.rs:151-192 | the body parser's loop computes the specified parse |
| TailCursor.ReadDelta | tail/src/body.rs:277-302 | the delta parser's loop computes the specified parse |
| TailCursor.WriteBody | tail/src/body.rs:125-148 | the body encoder's loop writes the specified encoding |
| TailCursor.WriteOps | tail/src/body.rs:253-275 | the delta encoder's loop writes the specified encoding |
| TailBody.GetInsert | tail/src/body.rs:211-224 | a write changes what is pending for its own key only |
| TailBody.GetRetain | tail/src/body.rs:225-233 | a flush drops exactly the rows it covers |
| TailBody.ParseExact | tail/src/body.rs:124-192 | the parser accepts exactly the encodings of bodies legal at that record |
| TailBody.ApplyDelta | tail/src/body.rs:201-239 | the loop over the operations computes the specified step |
| TailBody.ApplyExact | tail/src/body.rs:201-239 | exactly which deltas a body takes: 1 to 4,096 operations within the limits, flushing forwards and nothing of this delta, that leave at most 262,144 bytes |
| TailBody.ApplyIsLegal | tail/src/body.rs:196-239 | a step from a body legal earlier yields one the parser accepts at the new record |
| TailBody.OpsExact | tail/src/body.rs:253-302 | deltas have one spelling |
| TailLog.BodyRefinesLog | tail/src/body.rs:201-239 | after any accepted deltas the body holds, per key, exactly the last write above `through`: its number and value; `TailLog.BodyIsLog` ties `through` to the log |
| TailLog.BodyIsLog | tail/src/body.rs:201-239 | the root and the reach are those of the log's last flush, and the rows are exactly the last writes it does not reach |
| TailLog.OverlayIsReplay | tail/src/body.rs:198-243 | laying the body over the deltas up to `through` replays them all, across any flushes |
| TailLog.BodyAfterLegal | tail/src/body.rs:150-192 | every body a log produces is legal at its record |
| TailHost.ParseExact | tail/src/lib.rs:62-86 | what is read is exactly the encodings of well-shaped tails within the size bound |
| TailHost.AbsorbKeepsValid | tail/src/lib.rs:108-140 | whatever bytes arrive, a valid tail stays valid and is the same or ranks strictly higher |
| TailHost.SignedPartFits | tail/src/lib.rs:70-71 | the 1,024 bytes are enough exactly up to 15 signatures |
| TailHost.ReadsBack | tail/src/lib.rs:70-86 | exactly which tails read back |
| TailHost.ClosureExact | tail/src/lib.rs:70-71 | all tails of an authority read back exactly when it needs at most 15 signatures |
| TailHost.SixteenDoesNotClose | tail/src/lib.rs:70-140 | under any 16-signature authority a signed first delta that fills the body is accepted and leaves a valid tail that cannot be read back |
| TailHost.UpdateCloses | tail/src/lib.rs:159-185 | up to 15 signatures a host with a valid tail answers any bytes with one that reads back |
| TailHost.DeltaApplies | tail/src/lib.rs:126-140 | the writer's own delta is applied on the record it was made for |
| TailDoors.ProvesExact | tail/src/lib.rs:49-56 | a tail verifies exactly when a live part at seq 1 or later signs the hash of its spelled-out body |
| TailDoors.DeltaExact | tail/src/lib.rs:126-140 | exactly when a delta is taken: the next seq, applicable, and signed over the body it makes; else nothing changes |
| TailDoors.StateExact | tail/src/lib.rs:112-123 | exactly when a state is taken: it proves its body and ranks strictly higher in numbers |
| TailDoors.NothingElse | tail/src/lib.rs:112-140 | no other bytes are ever taken |
| TailHost.TakenIsCarried | tail/src/lib.rs:108-140 | what a host takes is the part the candidate carries, well-shaped, verified and over the body taken |
| TailHost.StepExact | tail/src/lib.rs:108-140 | a host that takes something stays on the log exactly when the part it takes was signed over the log |
| TailHost.SafeStep | tail/src/lib.rs:108-140 | no candidate whose verified part the writer signed over its log moves a host off the log |
| TailHost.SafeRun | tail/src/lib.rs:108-140 | whatever bytes arrive in any order, under one key or k of n, the tail is empty or the writer's body at its seq |
| TailHost.HostReadsTheLog | tail/src/lib.rs:108-140 | so a reader of any host sees the log replayed up to the seq it holds |
| TailHost.DeltasInOrder | tail/src/lib.rs:126-140 | a host given the writer's deltas in order holds the newest body |
| TailHost.RunNeverFalls | tail/src/lib.rs:106-123 | over any run validity is kept and rank never falls |
| TailHost.StatesKeepTheBest | tail/src/lib.rs:13-16 | merging whole states keeps the highest valid decision offered, forks included |
| TailHost.StatesCommute | tail/src/lib.rs:13-16 | the same whole states in any order leave one summary |
| TailHost.NewestStateWins | tail/src/lib.rs:108-123 | once the newest state has arrived nothing before or after it matters |
| TailHost.SummaryExact | tail/src/lib.rs:98-104 | equal summaries mean one decision, whoever signed it |
| TailHost.OneRoundSync | tail/src/lib.rs:195-209 | answering a summary is merging the two states, and nothing is sent exactly when nothing is held or the decisions are equal |
| TailHost.UpdateState | tail/src/lib.rs:159-185 | the update loop absorbs each item's state before its delta |
| Doors.OffersInOrder | tail/src/lib.rs:167-177 | what a batch offers, item by item, a state before its delta |
| TailDoors.StateThenDelta | tail/src/lib.rs:167-177 | a state and the delta made for it, in one item, leave an empty host with the delta applied |
| TailWriter.WriterSignsOneBody | tail/src/lib.rs:126-140 | for every authority and legal log there is a signature scheme under which everything that can arrive meets the safety hypothesis |
| TailWriter.WriterPublishes | tail/src/lib.rs:62-68 | and under it every record of the log has a part that a host accepts |
| TailWriter.QuorumTail | tail/src/lib.rs:108-140 | for every k of n, a concrete writer and candidates that meet every hypothesis of the safety theorems and bring a host to record 1 |
| TailWriter.HostClosureExact | tail/src/lib.rs:70-140 | what an empty host stores after any candidate under any signatures reads back, exactly when at most 15 signatures are required |
| TailWriter.SixteenKeys | tail/src/lib.rs:70-140 | a concrete 16-of-16 host and delta: accepted, valid, unreadable |
| Site.SiteParamsExact | site/src/lib.rs:56-86 | exactly the accepted parameters: an app label, and one key or at most four required signatures |
| SiteAdmission.ParamsExact | site/src/lib.rs:56-86 | the same with the label and its letters spelled out |
| Site.MetadataSize | site/src/lib.rs:59-77 | the derived bound is the exact worst case, reached precisely with evidence |
| Site.FramingExact | site/src/lib.rs:88-110 | one framing per content |
| Site.ParseExact | site/src/lib.rs:119-131 | under accepted parameters, what is read is exactly the encodings of valid sites within the size bound |
| SiteAdmission.ValidationExact | site/src/lib.rs:119-131 | exactly the sites validation accepts, down to the signed bytes |
| Site.MergeOk | site/src/lib.rs:136-146 | the merge is valid, its web covered by the record it keeps |
| Site.MergeParts | site/src/lib.rs:136-146 | which web a merge carries and whether it carries evidence, from the two sites |
| Site.MergeReadsBack | site/src/lib.rs:136-146 | exactly when a merge reads back, decided from the two sites |
| Site.SmallMergeReadsBack | site/src/lib.rs:136-146 | sites that leave room for evidence merge for ever |
| Site.MergeFace | site/src/lib.rs:26-30 | a merge shows the higher decision and its web |
| SiteAdmission.MergeShowsHigher | site/src/lib.rs:136-146 | a merge shows the higher of the two in numbers, and carries evidence exactly when either does or the two prove a fork |
| Site.MergeLaws | site/src/lib.rs:26-30 | decision and web form a semilattice; idempotent on the whole site |
| Site.ForkOfFullSite | site/src/lib.rs:49-50 | of a fork, the higher version reads back and the merge does not exactly when its web leaves room for a record but not for its proof |
| Site.FullSitesFork | site/src/lib.rs:49-50 | a concrete fork at the bound: both versions read back, their merge does not |
| SiteDoors.DecodeReadsBack | site/src/doors.rs:84-116 | what the node encodes, with anything after it, decodes as the candidates it offers |
| SiteDoors.ItemsCost | site/src/doors.rs:84-87 | what decodes has four bytes or more for every item its count claims |
| SiteDoors.Reader.Item | site/src/doors.rs:93-112 | one item, read by the cursor |
| SiteDoors.Candidates | site/src/doors.rs:88-116 | the decode loop computes the specified decoding |
| SiteAdmission.OffersInOrder | site/src/doors.rs:93-112 | what an update offers, item by item and in order, related states passed over |
| SiteDoors.Update | site/src/doors.rs:118-137 | decode first, refuse parameters next, then fold merges over the valid candidates |
| SiteDoors.FoldShowsBest | site/src/doors.rs:118-137 | the fold stays readable and shows the highest decision that went in, with its web |
| SiteDoors.FoldsAgree | site/src/doors.rs:118-137 | hosts offered the same states show one face, whatever the order |
| SiteDoors.OverfullForgets | site/src/doors.rs:129-135 | exactly when the two sites do not fit together the held site stops reading, and any next valid site replaces it |
| SiteDoors.ForkIsForgotten | site/src/doors.rs:129-135 | a concrete host that holds version 1, is offered its fork and then version 0, and ends with version 0 |
| Pack.WellFormed | block/src/pack.rs:61-126 | the checking loop accepts exactly the specified packs |
| Pack.ParseExact | block/src/pack.rs:52-126 | a well-formed body is exactly the encoding of acceptable blocks in id order |
| Pack.WellFormedExact | block/src/pack.rs:52-126 | the same with kinds, lengths and rising ids spelled out |
| Pack.Build | block/src/pack.rs:140-169 | sort, dedup and the append loop compute the specified result and errors |
| Pack.BuildIsWellFormed | block/src/pack.rs:128-169 | what a build returns is well-formed exactly when the blocks it kept are acceptable, and then holds exactly what was offered |
| Pack.BuildIsSetEncoding | block/src/pack.rs:16-19 | the result depends only on the set offered, and a body determines that set, its blocks acceptable or not |
| Pack.PackIsBuild | block/src/pack.rs:128-169 | a well-formed body is the build of its own members, or is refused for its size |
| Pack.BuildRefusals | block/src/pack.rs:140-169 | empty and too-many refusals in the caller's terms |

## Left out

- The foreign-call layers (`abi.rs`, the `#[contract]` wrappers) and the bincode envelope of the answers: plumbing around
  the doors modelled here.
- The bodies of BLAKE3, Ed25519 and the tree library: not in the repository; they are arbitrary functions here.
- `Params::parse` of the Set (its encoding is shown injective), `collect` of the Set and the Bag, `validate`, `summarize` and `delta` of the Site: easy
  members beside the ones modelled.
- `read` and `read_unverified` apart from their parsers, and the Register's `get_state_delta`: a comparison and an encode.
- The rules of standalone blocks, `webapp/`, `register/src/succ.rs`, `vectors/`, the wasm tooling and the scripts.
- The cost counters: no number of signature checks is stated; that a useless part is not verified is what `AbsorbChanges`
  and `SetHost.AbsorbIsJoin` make harmless.
- `usize` conversions that fail only on a 32-bit target: every length they could refuse is refused by a later check.
- Binary search in a sorted summary is membership in it; unstable sorts are stable sorts of values that compare equal
  only when they are equal.
- Attack costs (how hard a collision is to find) and termination time.
- BagMerge.OneRoundSync: the case without a truncation collision; the exact condition is `BagMerge.OneRoundExact`.
- SetSync.OneRoundSync: states the collision-free case; the exact condition is `SetSync.OneRoundExact`.
- SiteDoors.FoldShowsBest: assumes web parts that leave room for evidence; the other case is `SiteDoors.OverfullForgets`.
- TailHost.SafeRun: a writer that signs two bodies for one seq is outside it; `TailHost.StepExact` says when one of its
  parts takes a host off the log, and `TailHost.StatesKeepTheBest` covers its whole states.
