# Wenyan, verified

A Dafny model of the Wenyan message archive, its approval pipeline and the evidence and replication around them,
with proofs of what they keep. `dafny verify dfyconfig.toml` checks everything.

## What is modelled

- **Archive.** The tables of the SQLite repository as one value (`Archive.Tables`) and as a class that updates them in
  place (`Archive.Store`). The store's own guard accepts an allowed edge *or* any edge that starts at the stored state
  (`packages/archive/src/sqlite.ts:494`), so it does not enforce the table of transitions. That is proved from the
  callers instead.
- **Pipeline.** The docket step and the finalization, once as functions on the office's whole state and once step by
  step on the store, the resolver and the consensus object, with every method proved equal to its function. `OfficeRuns`
  lets any number of messages, docket steps, finalizations, worker failures, approvals, law lookups, invalidations,
  consensus messages and genesis steps follow each other in any order and proves what every such run keeps:
  logs contiguous, chained, hashed and on allowed edges; archived and rejected last; six verified seals exactly for
  archived messages; the indexes in agreement with the log; the law cache coherent; the consensus log valid. And
  every message that becomes archived does so by a step that had all its grounds, with seals that go on verifying under
  that step's own keys.
  `PipelineExactly` proves the converse: with working keys, a pending message is archived exactly when all of it passes.
- **Replication.** `syncWithPeer` as a loop over wire rows. A node that holds any earlier point of an office's run
  catches up with it by one sync, or page by page by several, where the foreign key on superseded messages lets it and
  no page finds equal roots before.
- **Law.** The top-two query, and the cache with its time limit and its invalidation. The cache is keyed by law type
  and ignores the moment asked about, so coherence is stated over the history of calls.
- **Evidence.** Three Merkle trees, the six-stage seal chain, Base64 and HS256 tokens.
- **Agreement.** The PBFT log of one replica, vector clocks and the pairwise merge of edicts, the bridge's circuit
  breaker and outbound queue.

What each of these decides or writes is also proved in terms of the data it looks at, apart from the functions that compute
it: the columns of the law query (`LawColumns`), the claims of a token (`JwtClaims`), the signatures and records of a seal
chain (`SealTerms`), the entries of the consensus log (`Commitment`), the contents of laws (`PipelineTerms`), the columns of
the tables (`ArchiveTerms`), the rows of a sync (`SyncTerms`), the rows a call leaves (`PipelineTrail`, `PipelineAnswers`)
and the events of a run (`OfficeEvents`).

Times are integers (milliseconds or seconds as in the code). Digests, signatures, JSON printing and parsing, collation and the law
and type schemas are function parameters: digests are taken to be injective where a lemma says so, and free of `:` where a tree
joins them with `:`; signatures to verify under the matching key; parsing to undo printing. Clocks and the answers of
the network are parameters of each call.

## Where the code falls short, exactly

- The admissible runs start docket steps and finalizations on messages stored as pending, because the code does not
  check it. What happens otherwise is said for every state and every outcome: `PipelineLimits.FinalizeAllowedExactly`,
  `FinalizeLandsExactly` and `RefinalizedSealsExactly` for finalizations, `DocketOffPendingExactly` for docket steps,
  `WorkOffPendingExactly` for the worker, whose catch path ends in rejected whatever the state was. An archived message
  is taken out of the archive exactly when the gates are open and the new seals do not pass
  (`OfficeLimits.UnarchivesExactly`, and `OfficeLimits.RefinalizingRejects` for a run from a new office that does it).
- Finalization reports a rejection that it does not record when the protocol law cannot be loaded
  (`PipelineEffects.FinalizeReportsStoredExactly`).
- Genesis archives straight from pending, an edge the table lacks (`PipelineRuns.Founded`), and drops no cached law. Where
  it archives an edict it keeps the office sound exactly when the cached answer about the edict's law type survives the edict
  (`PipelineRuns.FoundKeepsSoundExactly`): none is cached, or some call that may have kept it asked about a moment before
  the edict's effective date, or the edict does not change the answer. Genesis dates its edicts at the moment of founding
  (`packages/genesis/src/apply.ts:178`), so an answer asked for earlier about its own moment survives. What does not is an
  answer about the founding moment or a later one (`PipelineRuns.FoundingFirstEdictExactly`), and the admissible runs leave
  out that case alone.
- The worker's catch path names the previous row's own previous hash, so the rejection it appends is not linked
  (`PipelineLimits.CatchBreaksExactly`).
- A sync fetches a message when a row of its log comes by, and the foreign key refuses it while the message it names has
  not come. A node catches up exactly when every message finds the one it names (`Convergence.SyncConverges`,
  `OfficeSync.StaleNodeCatchesUp`, `PagedSync.SomePageBreaksOff`); one that names a message nobody has taken up yet stops
  the sync.
- A sync copies no seals. Whatever its limit and however it ends, it leaves a sound office exactly when it archived nothing
  on the node (`OfficeReplicas.SyncSoundExactly`), and one of the whole log exactly when it found equal roots and did
  nothing (`OfficeReplicas.CatchUpSoundExactly`).
- A sync drops no cached law either: each new edict it brings in leaves the cache coherent exactly when the cached answer
  about its law type survives it (`OfficeReplicas.SyncedEdictCacheExactly`).
- Equal roots stop a sync, and they say less than equal logs. They cover the payloads of archived messages, up to padding
  (`RootAgreement.RootsAgreeExactly`): rows of messages that have not been archived do not come while nothing else is
  (`OfficeReplicas.UnarchivedRowsDoNotCome`), and an archived copy of the last payload can go unnoticed
  (`RootAgreement.SamePayloadGoesUnnoticed`). A node that catches up in pages stops at the first page that finds the roots
  agreed; the rows past it stay out (`PagedSync.PagesConverge`).
- Prepares and commits are counted across views. With prepares of one view only, committed means a quorum in that view
  (`Consensus.OneViewQuorum`); one view change is enough to lose it (`Consensus.ViewChangeSplitsQuorum`), and what is
  left is a share of the threshold (`Consensus.CommittedShare`).
- A cached law ignores the moment asked about. A hit is right exactly when the law is settled between the two moments
  (`LawResolver.HitIsExactly`, and `Law.SameLawExactly` for when it is); otherwise it can be a law not yet in force
  (`LawResolver.HitIgnoresMoment`).
- Precedence and clock dominance can form a cycle (`Crdt.ThreeEdictCycle`): edicts have one winner in every order
  exactly when one of them beats all others (`Crdt.OrderIndependentExactly`).
- The constitutional root depends on the listing order exactly when documents the collation ties carry different labels
  (`ChannelMerkle.OrderIndependentExactly`).
- Routing fills in an absent destination before the test for an empty payload, so an empty payload passes it exactly when
  the routing law lists its genre and it names no destination (`PipelineReviews.EmptyRefusedExactly`,
  `EmptyPassesExactly`).
- The bridge's configured maximum of retries is never read: a row leaves the queue exactly when it is published, after
  any number of failures (`BridgeRetries.RetriedUntilPublished`), and is due again at once
  (`BridgeRetries.FailedIsDueAgain`).
- The bridge stores the foreign id after it has published. Where the fetched document is not stored the foreign key refuses
  it, and a document that went out is marked failed and goes out again (`BridgeRetries.DeliveredLeavesExactly`). A document
  has one foreign id, so a second adapter overwrites the first's (`BridgeRetries.LastPublicationLinks`).

Two things that look like shortcomings are met elsewhere in the code:

- The pipeline lets a genre without a definition pass its schema review (`PipelineTerms.SchemaReviewExactly`). The
  gateway has refused such a message before (`packages/gateway/src/index.ts:126-131` and `:196`), so only a direct call
  of the pipeline meets this.
- The v3 backfill writes an empty reference where archiving writes none (`Archive.BackfillIdempotentExactly`,
  `Archive.BackfillRewritesEmptyReference`). The gateway's schemas refuse an empty reference
  (`packages/core/src/law.ts:24`, `packages/core/src/ti.ts:42`), and so does the foreign key unless `superseded_by` names
  a stored message besides, or one with the empty id is stored. It takes a direct call of the repository.

## Model

| member | source | states |
|---|---|---|
| `MerkleTree.DepthIsLeast` | packages/archive/src/merkle-dag.ts:57-75 | the number of times a layer is paired up is the least k with 2^k >= n |
| `MerkleTree.PathClimbs` | packages/archive/src/merkle-dag.ts:33-81 | the built path climbs from its node to the root, is as long as the tree is deep, and its side bits spell the node's position |
| `MerkleTree.ClimbDeterminesNode` | packages/archive/src/merkle-dag.ts:33-43 | a path of full length reaches the root only from the node its side bits lead to, also when they lead into padding |
| `MerkleTree.ClimbDeterminesPath` | packages/archive/src/merkle-dag.ts:33-81 | if the side bits spell a real position, the only path that reaches the root is the built one |
| `MerkleTree.EqualRootsExactly` | packages/seal/src/merkle.ts:7-20 | for lists of any lengths, where no leaf digest is a node digest or the empty answer: equal roots exactly when padding makes one complete tree of both |
| `MerkleTree.DuplicatedLastLeaf` | packages/archive/src/merkle-dag.ts:17-21 | appending a copy of the last leaf to an odd list of at least three leaves the root unchanged |
| `MerkleDag.MerkleRootForLeaves` | packages/archive/src/merkle-dag.ts:12-25 | the loop computes the recursive root of the leaves |
| `MerkleDag.PairUp` | packages/archive/src/merkle-dag.ts:16-22 | one pass pairs up a layer, duplicating a last odd node |
| `MerkleDag.VerifyMerkleProof` | packages/archive/src/merkle-dag.ts:33-43 | answers true exactly when the path climbs from the hashed leaf to the named root |
| `MerkleDag.BuildMerkleProofFromLeaves` | packages/archive/src/merkle-dag.ts:45-81 | fails exactly out of range, with that error; otherwise the proof carries the target leaf, its path and the root |
| `MerkleDag.ProofComplete` | packages/archive/src/merkle-dag.ts:33-81 | every built proof verifies, with the least k, 2^k >= n, steps |
| `MerkleDag.ProofSound` | packages/archive/src/merkle-dag.ts:12-43 | a verifying proof of full length names the leaf its side bits lead to, and is the built proof when they spell a real position |
| `MerkleDag.ProofSoundForDigestLeaves` | packages/archive/src/merkle-dag.ts:33-43 | when leaves are digests themselves, as the archive's are, any verifying proof has full length and proves membership |
| `MerkleDag.FullLength` | packages/archive/src/merkle-dag.ts:33-43 | where neither the start nor a leaf is an inner node, only paths of full length reach the root |
| `MerkleDag.DagRootsBindLeaves` | packages/archive/src/merkle-dag.ts:12-25 | equally long leaf lists have equal roots exactly when they are equal |
| `MerkleDag.DagRootsExactly` | packages/archive/src/merkle-dag.ts:12-25 | without prefixes too: for leaves free of `:` other than `EMPTY`, the archive's digests among them, lists of any lengths share a root exactly when padding makes one tree of both |
| `MerkleDag.DagRootsOfOtherLengths` | packages/archive/src/merkle-dag.ts:12-25 | the roots shared otherwise: by padding, by an inner pair read as a leaf, by the text hashed for no leaves |
| `SealMerkle.SealSchemeSound` | packages/seal/src/merkle.ts:3-20 | the `leaf:` and `node:` prefixes keep leaf digests, node digests and the empty root apart |
| `SealMerkle.MerkleRoot` | packages/seal/src/merkle.ts:7-20 | the loop computes the recursive root under the prefixed scheme |
| `SealMerkle.SealRootsExactly` | packages/seal/src/merkle.ts:7-20 | equal roots exactly for lists that padding expands alike; at equal length exactly for equal lists |
| `SealMerkle.SealRootsOfOtherLengths` | packages/seal/src/merkle.ts:10-18 | the padding ambiguity remains despite the prefixes |
| `ChannelMerkle.MerkleRoot` | packages/channel/src/merkle.ts:13-26 | the loop computes the recursive root |
| `ChannelMerkle.ConstitutionalMerkleRoot` | packages/channel/src/merkle.ts:28-35 | the root of the labels of the documents sorted by archive time and id |
| `ChannelMerkle.ConstitutionalRootIs` | packages/channel/src/merkle.ts:28-35 | it is the root of the texts `time:id` of the documents, each as often as listed, none before one that is earlier or, at the same time, collated first; documents the collation ties stay as listed |
| `ChannelMerkle.OrderIndependentExactly` | packages/channel/src/merkle.ts:28-35 | the constitutional root is the same for every listing order exactly when documents the collation ties carry the same label |
| `Base64.OctetsOfSextets` | packages/seal/src/crypto.ts:10-27 | regrouping octets into sextets loses nothing |
| `Base64.SextetsOfOctets` | packages/seal/src/crypto.ts:10-27 | the other way round exactly for canonical sextets, those without spare bits |
| `Base64.AtobOfBtoa` | packages/seal/src/crypto.ts:10-27 | decoding padded Base64 undoes encoding, for every byte string |
| `Base64.TakenExactly` | packages/seal/src/crypto.ts:19-27 | without white space `atob` takes exactly texts of the 64 symbols, unpadded but for a length of one more than a multiple of four, or with one or two signs of padding up to one |
| `Base64.SpaceIsIgnored` | packages/seal/src/crypto.ts:19-27 | white space makes no difference, wherever it stands |
| `Base64.BytesToBase64` | packages/seal/src/crypto.ts:10-17 | the loop over the buffer produces the Base64 text of the bytes |
| `Base64.Base64ToBytes` | packages/seal/src/crypto.ts:19-27 | the loop over the decoded text produces the bytes, or none where `atob` throws |
| `Base64.UrlDecodeIs` | packages/seal/src/crypto.ts:37-41 | a text of the URL form is decoded as the one with `+` for `-` and `/` for `_`, filled up with `=` to a multiple of four |
| `Base64.UrlRoundTrip` | packages/seal/src/crypto.ts:29-41 | swapping the two characters, stripping the padding and undoing both gives back every byte string |
| `Base64.UrlReEncode` | packages/seal/src/crypto.ts:29-41 | re-encoding a decoded text gives it back exactly when the text is canonical |
| `Base64.UrlEncodeHasNoDot` | packages/seal/src/crypto.ts:29-35 | encoded text holds no dot, so it cannot be split |
| `Base64.ConstantTimeEqual` | packages/seal/src/crypto.ts:43-48 | accumulating exclusive-ors tells exactly whether the buffers are equal, length included |
| `Jwt.VerifyJwt` | packages/seal/src/crypto.ts:70-108 | makes the tests in the order of the code, with its refusals and exceptions |
| `JwtClaims.TestedExactly` | packages/seal/src/crypto.ts:97-107 | the claims are accepted exactly when each text the caller names is the claim under its key and the times are right; otherwise the answer is the first thing wrong, in the order of the code |
| `JwtClaims.EncodedIs` | packages/seal/src/crypto.ts:59-68 | the text of an encoded token, the header of the caller laid over the default one |
| `JwtClaims.EncodedExactly` | packages/seal/src/crypto.ts:59-108 | an encoded token is accepted exactly when its claims hold, and otherwise refused for the first thing wrong with them |
| `JwtClaims.AcceptedExactly` | packages/seal/src/crypto.ts:70-108 | a token of whatever origin is accepted with some claims exactly when it is three texts joined by dots, a header of the algorithm, those claims and the keyed digest of both, and the claims hold |
| `JwtClaims.AcceptedSays` | packages/seal/src/crypto.ts:102-105 | so an accepted token has every text its caller names |
| `Jwt.TokenSplits` | packages/seal/src/crypto.ts:59-76 | a token splits into exactly three parts, each decoding to what was encoded |
| `Jwt.TokenRoundTrip` | packages/seal/src/crypto.ts:59-108 | a token with the default header is put to the claim tests and nothing else |
| `Jwt.TokenLifetime` | packages/seal/src/crypto.ts:59-107 | a token is accepted at some moment exactly when its claims are presentable, and then over one unbroken stretch of time, with the claims it was made of |
| `Jwt.AcceptedIsSigned` | packages/seal/src/crypto.ts:70-95 | any token that verifies is three parts joined by dots whose last decodes to the keyed digest of the first two |
| `Jwt.OtherSecretExactly` | packages/seal/src/crypto.ts:59-95 | under another secret the verdict is that under its own exactly where both digest the signed text alike, and otherwise a refused signature |
| `SealChain.ThresholdOf` | packages/seal/src/thresholds.ts:5-21 | an override decides for its genre; otherwise three signatures for a type definition, one for anything else |
| `SealTerms.EnoughExactly` | packages/seal/src/thresholds.ts:5-21 | there are enough imperial signatures exactly when as many as an override asks for are there, or three for a type definition and one for anything else |
| `SealTerms.MadeExactly` | packages/seal/src/chain.ts:101-175 | a chain that is made has six seals, each at its reading of the clock with the hash before it, the record of its stage and the digest of that, the first signed with the draft key, the last with the master key, the others by digest with the secret |
| `SealChain.CreateSealChain` | packages/seal/src/chain.ts:130-175 | the loop makes the six seals in stage order, or fails where it throws |
| `SealChain.VerifySealChain` | packages/seal/src/chain.ts:177-231 | the loop makes every check of every stage in order |
| `SealTerms.VerdictExactly` | packages/seal/src/chain.ts:101-231 | a chain verifies exactly when it is six linked seals, the first signed under the draft key, the last under the master key, those between by digest with the secret, the fourth with a capability of this actor in its time, with enough imperial signatures and a provenance that is not blank |
| `SealTerms.OtherActorsCapability` | packages/seal/src/chain.ts:208-219 | a capability of another actor, however signed and whenever presented, makes a chain false |
| `SealChain.ChainCreated` | packages/seal/src/chain.ts:139-146 | with keys that sign, a chain comes out exactly when there are enough imperial signatures |
| `SealChain.SealChainRoundTrip` | packages/seal/src/chain.ts:130-231 | a created chain verifies exactly while its token is in its window and the declared provenance is not blank |
| `SealChain.VerifiedIsLinked` | packages/seal/src/chain.ts:183-205 | six seals in stage order, each naming the hash before it and carrying the digest of its own record |
| `SealChain.FinalHashBindsChain` | packages/seal/src/chain.ts:148-231 | two chains that verify and share the last hash agree on the message and on every stage, hash, payload and creation time |
| `SealChain.VerdictReadsOnly` | packages/seal/src/chain.ts:177-231 | verification reads no more of a message than its id, genre and actor id |
| `Archive.Store.InsertMessage` | packages/archive/src/sqlite.ts:463-490 | a new message is stored as specified, or refused because its id is taken or the message it names is not stored; the tables stay consistent |
| `ArchiveTerms.MessageStoredExactly` | packages/archive/src/sqlite.ts:463-490 | a message is stored exactly when its id is free and the message it names is stored or is itself; its row holds what it says, and no other row changes |
| `Archive.Store.InsertTransition` | packages/archive/src/sqlite.ts:492-539 | guard, uniqueness, hashing and indexing as specified; the tables stay consistent |
| `ArchiveTerms.TransitionAcceptedExactly` | packages/archive/src/sqlite.ts:492-539 | a transition is accepted exactly when it goes along an edge from the stored state or claims to start there, its number is free, and its message is stored |
| `ArchiveTerms.TransitionRow` | packages/archive/src/sqlite.ts:498-532 | the row it leaves, field by field, previous hash and own digest included |
| `ArchiveTerms.EdgesExactly` | packages/core/src/kinds.ts:9-20 | the table of edges, written out state by state |
| `ArchiveTerms.StoredIsNewest` | packages/archive/src/sqlite.ts:587-593 | the stored state and the last hash are those of the row with the greatest number |
| `ArchiveTerms.TransitionsExactly` | packages/archive/src/sqlite.ts:605-632 | a message's transitions are its rows, each as often as logged, in the order of their numbers |
| `Archive.Store.IndexMessage` | packages/archive/src/sqlite.ts:1426-1490 | archiving an edict or a type definition upserts its index row; archiving anything marks its row |
| `Archive.Store.InsertSeal` | packages/archive/src/sqlite.ts:541-561 | a seal is stored unless its id is taken or its message unknown |
| `Archive.Store.InsertApproval` | packages/archive/src/sqlite.ts:679-694 | an office's approval is stored once, and the count returned is that of the distinct offices |
| `Archive.AppendTransitionKeeps` | packages/archive/src/sqlite.ts:492-539 | every accepted transition keeps messages, index and log consistent with each other |
| `Archive.IndexAgreesWithLog` | packages/archive/src/sqlite.ts:534-538 | an edict has an index row exactly when it was ever archived, sealed when it last was |
| `ArchiveTerms.IndexedExactly` | packages/archive/src/sqlite.ts:1426-1490 | an edict or type definition has an index row exactly when it was ever archived and says what it is about; every column of it in terms of the payload, the defaults and the last row that archived it |
| `ArchiveTerms.BackfillExactly` | packages/archive/src/sqlite.ts:326-385 | what the v3 backfill leaves, column by column: archiving dates, and the rows of archived edicts and type definitions; all else stays |
| `ArchiveTerms.BackfillFailsExactly` | packages/archive/src/sqlite.ts:326-385 | it fails exactly when an archived edict or type definition does not say what it is about |
| `Archive.BackfillIdempotentExactly` | packages/archive/src/sqlite.ts:326-385 | re-running the v3 backfill goes through and changes nothing exactly when every archived edict has a law type, every archived type definition a genre, and none of them refers to the empty text |
| `Archive.BackfillRewritesEmptyReference` | packages/archive/src/sqlite.ts:326-385 | an archive reached by storing and archiving one edict that refers to the empty text, in which it does change something |
| `Archive.ArchivedMessagesHaveProofs` | packages/archive/src/sqlite.ts:820-871 | a message has a proof exactly when it was archived, and the proof verifies against the root |
| `ArchiveTerms.LeavesExactly` | packages/archive/src/sqlite.ts:845-871 | the leaves of a root are the payload digests of the messages that count for its scope, each once, by archiving time and then id |
| `Replay.ReplayOfPermutation` | packages/archive/src/replay.ts:3-7 | with distinct sequence numbers the rows' order makes no difference |
| `Replay.ReplayIsSnapshot` | packages/archive/src/sqlite.ts:587-593 | replaying a message's rows in any order gives its stored state |
| `Replay.StateAtIsReplay` | packages/archive/src/query.ts:3-8 | the state at a moment is the replay of the rows up to it |
| `Replay.SameRowExactly` | packages/archive/src/sqlite.ts:696-713 | the archive's query finds the same row exactly when the newest visible row has a sealed time |
| `Replay.StateAtAgrees` | packages/archive/src/sqlite.ts:696-713 | so where every row is sealed the archive and the library agree at every moment |
| `Law.MissingExactly` | packages/archive/src/sqlite.ts:744-797 | no law is found exactly when no effective edict is left unsuperseded |
| `Law.FoundExactly` | packages/archive/src/sqlite.ts:744-797 | a law is found exactly when it outranks all other candidates by precedence, effective date and sealed time |
| `Law.AmbiguousExactly` | packages/archive/src/sqlite.ts:744-797 | ambiguity is raised exactly when two candidates share the best rank |
| `LawColumns.FoundByColumns` | packages/archive/src/sqlite.ts:744-797 | in terms of the columns alone: an edict is the law exactly when it is of the type, in effect and named as superseded by no such row, and every other such edict has a smaller precedence, or the same and an earlier effective date, or both the same and an earlier sealed time |
| `LawColumns.AnswerIsRow` | packages/archive/src/sqlite.ts:744-797 | what is answered is what the columns of that edict's row hold |
| `LawColumns.MissingByColumns` | packages/archive/src/sqlite.ts:744-797 | there is no law exactly when no edict stands in that sense |
| `LawColumns.AmbiguousByColumns` | packages/archive/src/sqlite.ts:744-797 | ambiguity is raised exactly when two edicts that stand are level in all three columns and no edict that stands is above them |
| `Law.EffectiveLawNeverMissing` | packages/archive/src/sqlite.ts:744-797 | if supersession names earlier-sealed edicts only, a law is missing exactly when no edict is effective |
| `Law.MutualSupersessionLeavesNone` | packages/archive/src/sqlite.ts:744-797 | that condition is needed: two edicts superseding each other leave no law |
| `Law.SameEffectiveSameLaw` | packages/archive/src/sqlite.ts:744-797 | the answer depends on the effective edicts of the type and nothing else |
| `Law.OtherEdictsDoNotMatter` | packages/archive/src/sqlite.ts:744-797 | archiving an edict of another type, or effective later, never changes the answer |
| `Law.SameLawExactly` | packages/archive/src/sqlite.ts:744-797 | a law found at one moment is the law at a later one exactly when no edict that takes effect in between supersedes it or comes up against it unsuperseded and not outranked |
| `Law.StillMissingExactly` | packages/archive/src/sqlite.ts:744-797 | where there was no law there still is none exactly when everything that takes effect in between is superseded |
| `Law.AddedMissingExactly` | packages/archive/src/sqlite.ts:744-797 | with one edict more in effect there is no law exactly when that edict is out of force itself and supersedes every candidate there was |
| `Law.AddedFoundExactly` | packages/archive/src/sqlite.ts:744-797 | with one edict more in effect an earlier one is the law exactly when it was a candidate, the new one does not supersede it, and it outranks every other candidate the new one leaves, and the new one unless that is out of force |
| `LawResolver.Resolver.Get` | packages/pipeline/src/law-resolver.ts:62-92 | hit or miss as specified; a coherent cache stays coherent and its answers justified |
| `LawResolver.Resolver.Invalidate` | packages/pipeline/src/law-resolver.ts:54-60 | drops one entry or all, and coherence stays |
| `LawResolver.Resolver.GetAll` | packages/pipeline/src/law-resolver.ts:48-52 | every answer is the present law as of a moment that was asked about, unless one is ambiguous |
| `LawResolver.Resolver.GetLawSet` | packages/pipeline/src/law-resolver.ts:94-100 | the same for exactly the eight known law types, listed by name; it stops only where one of them is ambiguous |
| `LawResolver.Resolver.Preload` | packages/pipeline/src/law-resolver.ts:48-52 | stops only at an ambiguous law, and coherence stays |
| `LawResolver.LookUpIsRecentLaw` | packages/pipeline/src/law-resolver.ts:62-92 | an answer is the present law as of the moment of a call made less than a lifetime ago, and of this call unless it was a hit |
| `LawResolver.ArchivingKeepsCoherent` | packages/pipeline/src/index.ts:148-157 | indexing an edict and dropping what the pipeline drops for it keeps every cached answer current |
| `LawResolver.DroppedExactly` | packages/pipeline/src/index.ts:148-157 | archiving an edict of one of the eight known law types drops the cached answer about that type alone, one of any other type or none drops all |
| `LawResolver.IndexedCacheExactly` | packages/pipeline/src/law-resolver.ts:54-92 | indexing a new edict and dropping nothing leaves the cache coherent exactly when no answer of its type is cached, or some call that may have kept it would be answered alike: it asked about an earlier moment, or the edict changes nothing then |
| `LawResolver.FirstEdictUnharmedExactly` | packages/pipeline/src/law-resolver.ts:54-92 | for the first edict of its type exactly when some such call asked about a moment before the edict takes effect |
| `LawResolver.HitIsExactly` | packages/pipeline/src/law-resolver.ts:64-67 | on a hit the answer is the law at the moment asked about exactly when that law is settled between it and the moment of the live call whose answer was kept |
| `LawResolver.SettledLookUpIsExact` | packages/pipeline/src/law-resolver.ts:62-92 | hit or miss, with a coherent cache the answer is exact while the law is settled back to every live call |
| `LawResolver.HitIgnoresMoment` | packages/pipeline/src/law-resolver.ts:64-67 | otherwise a hit can answer with a law not yet in force at the moment asked about |
| `Sync.SyncWithPeer` | packages/archive/src/sync.ts:44-104 | compares roots, replays the range and reports as specified |
| `Sync.SyncRange` | packages/archive/src/sync.ts:62-94 | the loop: state and counters are those after the whole range, or at the first error |
| `Sync.SyncOneRow` | packages/archive/src/sync.ts:63-93 | one row: dedup, fetch of the message, append, in the order of the code |
| `SyncTerms.RowExactly` | packages/archive/src/sync.ts:62-93 | what becomes of a row in every case: malformed, unresolved, refused by the store, repeated, or appended, with the message that came for it |
| `SyncTerms.SyncExactly` | packages/archive/src/sync.ts:44-104 | a sync between different roots goes through the range row by row up to the first failure and reports how many rows came out each way; between equal roots it does nothing |
| `SyncTerms.RangeExactly` | packages/archive/src/sqlite.ts:873-907 | the rows an archive hands out are those after the cursor, in the order of the log, as many as the limit allows |
| `Sync.SyncCounts` | packages/archive/src/sync.ts:62-104 | a completed sync has applied + skipped + unresolved = fetched |
| `Sync.AfterKeeps` | packages/archive/src/sync.ts:62-94 | whatever the peer sends, the local tables stay consistent |
| `Sync.SyncIdempotent` | packages/archive/src/sync.ts:44-104 | an immediate repeat of a completed sync applies nothing |
| `Convergence.ObtainFromPeer` | packages/archive/src/sync.ts:70-82 | a message the archive lacks comes from the peer when the one it names is there |
| `Convergence.BreaksOff` | packages/archive/src/sync.ts:70-82 | a sync in which one does not breaks off on the foreign key |
| `Convergence.SyncConverges` | packages/archive/src/sync.ts:44-104 | over the whole log of a peer whose logs extend the local ones: exactly when every message that comes in finds the one it names there is no error, and then logs with hashes, indexes, constitutional and legislative roots are equal |
| `Convergence.AgreementFollows` | packages/archive/src/sqlite.ts:845-871 | archives with the same logs and bodies have the same indexes and the same constitutional and legislative roots |
| `RootAgreement.RootsAgreeExactly` | packages/archive/src/sqlite.ts:820-871 | two archives have the same root exactly when padding makes one tree of the payload digests of their archived messages, in order of archiving |
| `RootAgreement.AgreedSyncBringsNothing` | packages/archive/src/sync.ts:50-55 | a sync that finds the roots equal reports no divergence and changes nothing, whatever the logs hold |
| `RootAgreement.SamePayloadGoesUnnoticed` | packages/archive/src/sqlite.ts:474 | a peer that has archived one more message with the payload of the last, after an odd number of three or more, has the same root: the sync does not see it |
| `PagedSync.ApartIsOneSync` | packages/archive/src/sync.ts:50-60 | after n syncs of one limit, each from where the one before stopped and none finding the roots agreed, the archive is what one sync of the whole log makes of it by that row |
| `PagedSync.StopsThere` | packages/archive/src/sync.ts:50-55 | once one of them finds the roots agreed, nothing more comes in |
| `PagedSync.PagesConverge` | packages/archive/src/sync.ts:44-104 | where every message finds the one it names, syncs that span the log, of any positive limit, bring in the rows up to the first that finds the roots agreed; if that is the end, or none does, the logs, indexes and roots are the peer's |
| `PagedSync.SomePageBreaksOff` | packages/archive/src/sync.ts:44-104 | and where some message does not find the one it names, one of them finds the roots agreed or breaks off on the foreign key |
| `LogShape.TerminalIsLast` | packages/core/src/kinds.ts:9-20 | along allowed edges only the last row can arrive at archived or rejected |
| `LogShape.LastHashBindsExactly` | packages/archive/src/sqlite.ts:498-513 | two linked logs end in the same hash exactly when they agree on every hashed field of every row |
| `Consensus.PbftConsensus.Create` | packages/consensus/src/index.ts:67-73 | a threshold below two is refused exactly unless a single replica is allowed |
| `Consensus.PbftConsensus.Append` | packages/consensus/src/index.ts:147-163 | checks and deduplicates as specified; a valid log stays valid and loses nothing |
| `Consensus.PbftConsensus.ProposeDefinition` | packages/consensus/src/index.ts:75-96 | signs and appends the node's own proposal as specified |
| `Consensus.PbftConsensus.AnnounceViewChange` | packages/consensus/src/index.ts:110-132 | moves the view on and announces it as specified |
| `Consensus.OwnProposalEnters` | packages/consensus/src/index.ts:75-96 | a member's own proposal gets into the log, once |
| `Consensus.RunKeeps` | packages/consensus/src/index.ts:147-163 | in every reachable log each entry is signed by a member and alone in its slot, and nothing is taken back |
| `Consensus.CommitStays` | packages/consensus/src/index.ts:134-141 | what is committed stays committed |
| `Commitment.CommittedExactly` | packages/consensus/src/index.ts:134-141 | a proposal is committed exactly when the log holds a pre-prepare of it by anybody, a prepare of it by each of some threshold of nodes, and a commit of it by each of some threshold of nodes, whoever they are |
| `Commitment.RunCommits` | packages/consensus/src/index.ts:134-163 | whatever the order and whatever else happens, a run that gets those from members in, properly signed, ends with the proposal committed |
| `Commitment.ReceivedExactly` | packages/consensus/src/index.ts:147-163 | a message is refused for the first thing wrong with it, ignored if the node's entry for that phase and view is there, and otherwise appended; nothing else changes |
| `Commitment.SignedExactly` | packages/consensus/src/index.ts:75-108 | what a node signs itself: refused without a usable key, otherwise taken in as a received message is, its public key known from then on |
| `Consensus.QuorumsOverlap` | packages/consensus/src/index.ts:134-141 | any two proposals committed on any two nodes share at least 2t - n committing members |
| `Consensus.CommittedShare` | packages/consensus/src/index.ts:134-141 | a committed proposal prepared over k views has at least a k-th of the threshold in one of them, so a quorum when there is one view |
| `Consensus.OneViewQuorum` | packages/consensus/src/index.ts:134-141 | in a run that delivers a proposal's prepares from one view only, committed means a quorum of prepares in that view |
| `Consensus.ViewChangeSplitsQuorum` | packages/consensus/src/index.ts:110-141 | one view change is enough to break that: for any sound signatures, a run of received messages ends committed with no quorum in any view |
| `Crdt.CompareVectorClock` | packages/crdt/src/index.ts:27-41 | the loop over all keys gives the order of the clocks |
| `Crdt.MergedClock` | packages/crdt/src/index.ts:19-25 | the loop gives the pointwise maximum |
| `Crdt.MergeEdict` | packages/crdt/src/index.ts:43-63 | picks winner, loser and clock as specified |
| `Crdt.MergeExactly` | packages/crdt/src/index.ts:19-63 | the winner, the reason and every entry of the merged clock, in terms of the entries of both clocks, the precedences and the collation of the node ids |
| `Crdt.ResolvedExactly` | packages/crdt/src/index.ts:65-71 | concurrent clocks with one precedence and one node are a schism named by both ids; anything else is merged |
| `Crdt.ClocksAreOrdered` | packages/crdt/src/index.ts:27-41 | with missing entries read as 0 the comparison is a partial order |
| `Crdt.JoinIsLeastUpperBound` | packages/crdt/src/index.ts:19-25 | the merged clock is the least upper bound |
| `Crdt.ResolutionSymmetricExactly` | packages/crdt/src/index.ts:65-71 | both nodes resolve alike, except exactly for two different undecided edicts that are not a schism |
| `Crdt.OrderIndependentExactly` | packages/crdt/src/index.ts:43-63 | merging different edicts gives one winner in every order exactly when one of them beats all others |
| `Crdt.ConcurrentEdictsConverge` | packages/crdt/src/index.ts:43-63 | pairwise concurrent edicts with distinct precedence and node have one winner in every order |
| `Crdt.ThreeEdictCycle` | packages/crdt/src/index.ts:43-63 | concurrency is needed: clocks and precedence together form a cycle of three |
| `Pipeline.AppendNextTransition` | packages/pipeline/src/index.ts:159-168 | appends the next-numbered transition as specified |
| `Pipeline.LoadLawContent` | packages/pipeline/src/law-access.ts:25-48 | resolves and parses a law, with a reason for a missing, ambiguous or malformed one |
| `PipelineTerms.LawLoadsExactly` | packages/pipeline/src/law-access.ts:25-48 | the content of a live cached answer if there is one, or else of the law of the moment, parsed; or the reason that there is none |
| `PipelineTerms.RouteExactly` | packages/pipeline/src/index.ts:229-265 | what routing makes of a message, in terms of the destinations the law lists for its genre |
| `PipelineTerms.DraftExactly` | packages/pipeline/src/index.ts:177-185 | the first review passes exactly a payload with a key whose author may draft a works genre |
| `PipelineTerms.SchemaReviewExactly` | packages/pipeline/src/index.ts:187-219 | the schema review passes exactly when an edict about a genre finds it defined and the payload has the keys the leading definition of its own genre asks for; an undefined genre asks for none; otherwise the reason |
| `PipelineTerms.ReviewExactly` | packages/pipeline/src/index.ts:267-297 | the review passes exactly when the appointment law gives the author's role `review` and `*` or the genre, and the role may review a works genre; otherwise the reason |
| `PipelineTerms.ClearanceExactly` | packages/pipeline/src/index.ts:327-352 | classification passes exactly an absent or empty clearance or one of the levels |
| `PipelineTerms.AuthorizationExactly` | packages/pipeline/src/index.ts:299-325 | authorization passes exactly when the appointment law gives the author's role `authorize` and the role may authorize a works genre; otherwise the reason |
| `PipelineTerms.AcknowledgedExactly` | packages/pipeline/src/index.ts:354-373 | how many approvals are asked for, and that there are enough exactly when at most one is or that many offices have each approved |
| `PipelineTerms.ConsensusExactly` | packages/pipeline/src/index.ts:524-542 | the consensus gate opens exactly when none is asked for, or the call's own proposal goes through and enough nodes have prepared and committed it |
| `Pipeline.PassGates` | packages/pipeline/src/index.ts:511-542 | acknowledgements, then consensus, as specified |
| `Pipeline.ApplySealsAndArchive` | packages/pipeline/src/index.ts:375-400 | seals, verifies, stores and archives, or rejects, as specified |
| `Pipeline.ProcessDocketMessage` | packages/pipeline/src/index.ts:457-555 | the docket step on store, resolver and consensus object equals its specification, branch by branch, the schema review of the type-definition index included |
| `TypeDefinitions.CurrentTypeExactly` | packages/archive/src/sqlite.ts:715-742 | in terms of the columns: the definition of a genre at a moment is the one, of those no other of the genre names as replaced, with the latest sealed time and then the greatest id; none exactly when there is no such one |
| `Pipeline.FinalizePendingMessage` | packages/pipeline/src/index.ts:408-455 | the finalization equals its specification, branch by branch |
| `Pipeline.CatchWorkerFailure` | packages/gateway/src/index.ts:427-453 | the worker's catch path equals its specification |
| `PipelineEffects.DocketEnds` | packages/pipeline/src/index.ts:457-555 | on a pending message: allowed edges only, nothing else touched, the stored state returned, nothing thrown but a failed signing, the office kept in order |
| `PipelineEffects.FinalizeEnds` | packages/pipeline/src/index.ts:408-455 | the same for a finalization that the protocol law does not stop |
| `PipelineEffects.DocketReportsStored` | packages/pipeline/src/index.ts:457-555 | what a docket step on a pending message returns is what is stored |
| `PipelineEffects.FinalizeReportsStoredExactly` | packages/pipeline/src/index.ts:419-422 | what a finalization returns is what is stored exactly when the protocol law could be loaded |
| `PipelineReviews.RoutingSettles` | packages/pipeline/src/index.ts:245-264 | routing refuses exactly a destination not listed where some are; what it lets through is listed, changed only where none was named, and left alone by routing it again |
| `PipelineReviews.EmptyRefusedExactly` | packages/pipeline/src/index.ts:177-185 | a docket step turns a pending message down for an empty payload exactly when routing went through, no key is left, and routing had no destination to add |
| `PipelineReviews.EmptyPassesExactly` | packages/pipeline/src/index.ts:177-264 | an empty payload passes the first review exactly when routing filled it in and the author may draft a works genre |
| `PipelineGrounds.OpenGatesMean` | packages/pipeline/src/index.ts:511-542 | open gates mean enough distinct office approvals under a law in force and a committed proposal where one is needed |
| `PipelineGrounds.MadeChainHadSignatures` | packages/seal/src/chain.ts:139-146 | a chain that was made had enough imperial signatures |
| `PipelineGrounds.FinalizedOnGrounds` | packages/pipeline/src/index.ts:408-455 | a finalization archives only with approvals, consensus and imperial signatures met |
| `PipelineGrounds.DocketArchivesOnGrounds` | packages/pipeline/src/index.ts:457-555 | a docket step archives only what the laws in force allow, by their content: a listed destination, the keys of the definition, `review` and `authorize` and the genre for the author's role, a known clearance, enough approving offices, agreement where it is needed, and enough imperial signatures |
| `PipelineExactly.SealAndArchiveExactly` | packages/pipeline/src/index.ts:375-406 | with working keys, sealing archives exactly when signatures, provenance and token window are right, and otherwise rejects, saying which |
| `PipelineExactly.FinalizeArchivesExactly` | packages/pipeline/src/index.ts:408-455 | a finalization archives a pending message exactly when the approvals the protocol law asks for are there, agreement where it is needed, and the seals pass |
| `PipelineExactly.DocketArchivesExactly` | packages/pipeline/src/index.ts:457-555 | a docket step archives a pending message exactly when the contents of the laws it reads route it, let its author draft, review and authorize it, and know its clearance, it fits its definition, the gates are open and the seals pass, all as things stand when the call begins |
| `PipelineAnswers.DocketAnswers` | packages/pipeline/src/index.ts:457-555 | with working keys, the outcome of a docket step on a pending message and every row it leaves, field by field, for each way the judgements can come out |
| `PipelineAnswers.FinalizeAnswers` | packages/pipeline/src/index.ts:408-455 | the same for a finalization of a pending message |
| `PipelineAnswers.GatesSay` | packages/pipeline/src/index.ts:511-542 | which gate is shut, and how many approvals are awaited |
| `PipelineAnswers.CannotAuthorizeExactly` | packages/pipeline/src/index.ts:318 | a docket step on a pending message is refused with `actor-cannot-authorize` exactly when it is routed, every review passes, and the appointment law does not give its author's role `authorize` |
| `PipelineTrail.CatchWrites` | packages/gateway/src/index.ts:427-453 | the worker's catch path writes nothing over a rejection, and otherwise one row to rejected, field by field, that names the previous hash of the row before it |
| `PipelineRuns.CatchKeepsSound` | packages/gateway/src/index.ts:427-453 | the catch path keeps every message right except for the link of the row it adds |
| `PipelineRuns.WorkKeepsSound` | packages/gateway/src/index.ts:414-453 | a worker's step, docket step and catch path together, keeps every message right |
| `PipelineRuns.FoundKeepsSoundExactly` | packages/genesis/src/apply.ts:185-203 | genesis, which drops no cached law, leaves the office sound exactly when it archives nothing or the cached answer about the edict's law type survives the edict |
| `PipelineRuns.FoundingFirstEdictExactly` | packages/genesis/src/apply.ts:164-203 | for the first edict of its type beside a cached answer: exactly when some call that may have kept it asked about a moment before the edict takes effect |
| `PipelineRuns.FoundingWrites` | packages/genesis/src/apply.ts:185-203 | what genesis writes for a message it archives: one row from pending to archived, field by field |
| `OfficeRuns.RunKeepsSound` | packages/pipeline/src/index.ts:375-555 | every admissible run keeps every log, seal set, index, cache and consensus log right |
| `OfficeRuns.EveryRunIsSound` | packages/pipeline/src/index.ts:375-555 | so every office reached from a new one by an admissible run is right |
| `OfficeRuns.SoundLog` | packages/archive/src/sqlite.ts:492-513 | row by row: numbered 1..n, chained states and hashes, allowed edges, archived and rejected only last. Two exceptions: a log that genesis wrote goes from pending to archived in its one row, and a last row by the gateway worker need not name the hash before it |
| `OfficeRuns.SoundSeals` | packages/pipeline/src/index.ts:380-397 | six linked seals in stage order that verified if archived, no seal otherwise |
| `OfficeEvents.SubmissionDoes` | packages/archive/src/sqlite.ts:463-490 | a submission in a run stores the message if its id is free and the one it names is there, and changes nothing else |
| `OfficeEvents.ApprovalDoes` | packages/archive/src/sqlite.ts:679-694 | an approval in a run is stored once for a stored message, and changes nothing else |
| `OfficeEvents.LawReadDoes` | packages/pipeline/src/law-resolver.ts:62-92 | reading a law in a run keeps what the query finds for the cache's lifetime unless a live answer is there or it is ambiguous |
| `OfficeEvents.AgreementDoes` | packages/consensus/src/index.ts:75-163 | a received message, an own proposal or a change of view in a run changes the replica alone |
| `OfficeEvents.DocketDoes` | packages/pipeline/src/index.ts:457-555 | a docket step on a pending message in a run leaves just the rows of its answer |
| `OfficeEvents.WorkerDoes` | packages/gateway/src/index.ts:414-453 | so does the worker's step, whose catch path has nothing to do when the keys work |
| `OfficeEvents.FinalizationDoes` | packages/pipeline/src/index.ts:408-455 | so does a finalization of a pending message |
| `OfficeEvents.FoundingDoes` | packages/genesis/src/apply.ts:185-203 | and genesis leaves the one row of what it archives |
| `OfficeRuns.StepSettles` | packages/pipeline/src/index.ts:375-555 | archived messages stay archived, and no step archives one but on grounds |
| `OfficeRuns.ArchivedOnGrounds` | packages/pipeline/src/index.ts:375-555 | in every admissible run, what becomes archived was archived by a step that had its grounds, genesis by a chain that came out and verified |
| `OfficeSeals.ArchivedRests` | packages/archive/src/sqlite.ts:541-561 | from any point of a run to its end an archived message keeps its body and its seals |
| `OfficeSeals.ArchivedUnderOwnSeals` | packages/pipeline/src/index.ts:375-406 | the seals an archived message ends up with verify under the keys, thresholds and time of the very step that archived it |
| `OfficeSeals.ArchivedIsGenuine` | packages/pipeline/src/index.ts:375-406 | in terms of keys and signatures: six linked seals, signed under the draft key, the secret and the master key of that step, with a capability of the author in its time, enough imperial signatures and a provenance that is not blank |
| `OfficeSync.RunGrows` | packages/archive/src/sqlite.ts:492-539 | in every admissible run logs are only appended to, and messages neither change nor vanish |
| `OfficeSync.StaleNodeCatchesUp` | packages/archive/src/sync.ts:44-104 | a node that holds any earlier point of a run catches up with it by one sync over the whole log, exactly when every message that comes in finds the one it names |
| `OfficeSync.StaleNodeCatchesUpByPages` | packages/archive/src/sync.ts:44-104 | and by several syncs of any positive limit up to the first that finds the roots agreed |
| `OfficeReplicas.SyncLeavesSeals` | packages/archive/src/sync.ts:44-104 | whatever the peer answers, a sync brings no seal and loses no message |
| `OfficeReplicas.SyncSoundExactly` | packages/archive/src/sync.ts:44-104 | any sync from the first row of a node that stopped following an office, whatever its limit and however it ends, leaves a sound office exactly when it has archived nothing on the node |
| `OfficeReplicas.CatchUpSoundExactly` | packages/archive/src/sync.ts:44-104 | one of the whole log that goes through leaves a sound office exactly when the roots were equal before, so that it did nothing |
| `OfficeReplicas.SyncedEdictCacheExactly` | packages/archive/src/sync.ts:62-94 | a row that brings a new archived edict leaves the cache coherent exactly when the cached answer about its law type survives it |
| `OfficeReplicas.RootsStay` | packages/archive/src/sqlite.ts:820-871 | while an office archives nothing its roots stay |
| `OfficeReplicas.UnarchivedRowsDoNotCome` | packages/archive/src/sync.ts:50-55 | so a node that stopped following an office before rows that archive nothing takes none of them |
| `PipelineLimits.CatchBreaksExactly` | packages/gateway/src/index.ts:427-453 | the catch path's edge is allowed exactly before authorization, and its row is linked exactly when the log is empty or its last row names its own hash |
| `PipelineLimits.FinalizeAllowedExactly` | packages/pipeline/src/index.ts:408-455 | from any stored state and for every outcome, a finalization keeps to allowed edges exactly when a gate is closed, or the seals pass and the state can be sealed from or an id is taken, or they do not and the state can be rejected |
| `PipelineLimits.FinalizeLandsExactly` | packages/pipeline/src/index.ts:408-455 | the state it ends in, from any stored one: rejected exactly when the gates are open and the seals do not pass |
| `OfficeLimits.UnarchivesExactly` | packages/pipeline/src/index.ts:408-455 | in a sound office a finalization takes an archived message out of the archive exactly when the gates are open and its own seals do not pass |
| `OfficeLimits.UnarchivedIsUnsound` | packages/pipeline/src/index.ts:375-400 | it is rejected then and keeps the seals of the first time, so the office is not sound any more |
| `OfficeLimits.RefinalizingRejects` | packages/pipeline/src/index.ts:408-455 | reached from a new office by genesis of a protocol edict, which asks for no acknowledgement, and one finalization of it out of its token window |
| `OfficeLimits.EdictRejectedTenMinutesLater` | packages/pipeline/src/index.ts:408-455 | one such edict and its two calls: archived at second 0, rejected at second 600 |
| `PipelineLimits.RefinalizedSealsExactly` | packages/pipeline/src/index.ts:375-400 | finalizing with passing seals what is archived already leaves seals that verify exactly when the very first new id is taken |
| `PipelineLimits.WorkOffPendingExactly` | packages/gateway/src/index.ts:414-453 | a worker's step on a message that is not pending always ends in rejected, properly exactly when it was rejected already or routing passed while it was validated or reviewed |
| `PipelineLimits.DocketOffPendingExactly` | packages/pipeline/src/index.ts:470-477 | a docket step on a message that is not pending is refused with nothing written, except exactly a routing rejection of a validated or reviewed one, which breaks its chain |
| `Bridge.PausedExactly` | packages/bridge/src/gateway.ts:428-445 | with a clock that does not run backwards, the breaker is paused exactly while some failure less than a cool-down ago had too large a share of failures in its window of the last hundred |
| `Bridge.TripsExactly` | packages/bridge/src/gateway.ts:421-445 | a report trips the breaker exactly when it is a failure and, of the last hundred reports up to it or of all if fewer, the number that failed is more than the threshold's share |
| `Bridge.ReportRefines` | packages/bridge/src/gateway.ts:421-438 | keeping a window and a deadline loses nothing about the reports made so far |
| `Bridge.Gateway.constructor` | packages/bridge/src/gateway.ts:143-146 | every adapter starts with an empty window; no foreign ids yet |
| `Bridge.Gateway.RecordSuccess` | packages/bridge/src/gateway.ts:421-426 | the breaker moves on by one success |
| `Bridge.Gateway.RecordFailure` | packages/bridge/src/gateway.ts:428-438 | the breaker moves on by one failure, tripping as specified |
| `Bridge.Gateway.IsBreakerOpen` | packages/bridge/src/gateway.ts:440-445 | open exactly while some reported failure less than a cool-down ago had tripped it |
| `Bridge.Gateway.Enqueue` | packages/archive/src/sqlite.ts:203-212 | a row for a stored message gets a new id, no attempts, and is queued; one for any other is refused |
| `BridgeRetries.DequeuedExactly` | packages/archive/src/sqlite.ts:1008-1035 | a batch holds due rows in the order of due time, creation time and id, within the limit; what is due and left out comes after all of it and had no room |
| `Bridge.EachItemSettles` | packages/bridge/src/gateway.ts:194-245 | each item of a batch is left alone, deleted exactly when published, or failed with one more attempt; no other row changes |
| `Bridge.ItemExactly` | packages/bridge/src/gateway.ts:194-245 | what is left of an item's row for every reply: itself where another adapter is meant, nothing where it was published and its document is stored, otherwise a failed row that says at which step |
| `Bridge.PushedCountsDeletions` | packages/bridge/src/gateway.ts:194-245 | the count returned is the number of rows deleted |
| `BridgeRetries.RetriedUntilPublished` | packages/bridge/src/gateway.ts:194-245 | over any number of synchronizations a row leaves the queue exactly when it is published, and until then has one more attempt for each it failed in |
| `BridgeRetries.FailedIsDueAgain` | packages/archive/src/sqlite.ts:1037-1050 | a failed row is due again as soon as the clock is not behind its failure |
| `Bridge.Gateway.Handle` | packages/bridge/src/gateway.ts:199-243 | one item is settled as specified: queue, dead letters, the one foreign id of the document, which is refused after the publication where the document is not stored, and breaker |
| `BridgeRetries.DeliveredLeavesExactly` | packages/bridge/src/gateway.ts:218-242 | a row whose document the adapter took leaves the queue exactly when the document fetched is stored; otherwise it stays, failed on the foreign key, and goes out again |
| `BridgeRetries.RightAnswersLeave` | packages/bridge/src/gateway.ts:212-228 | over any number of synchronizations, where the document fetched is the one asked for, the foreign key refuses nothing |
| `BridgeRetries.LastPublicationLinks` | packages/archive/src/sqlite.ts:945-970 | after a pass the foreign id of a document is that of its last publication, whichever adapter it went to |
| `BridgeRetries.UnpublishedKeepsLink` | packages/archive/src/sqlite.ts:945-970 | a document that a pass does not publish keeps the foreign id it had |
| `Bridge.Gateway.SyncOnce` | packages/bridge/src/gateway.ts:194-245 | one synchronization is a pass over the rows due |

## Left out

- `packages/archive/src/cloudflare.ts`: the same logic over D1, with a 32-bit rolling hash to which no result that assumes an injective digest applies.
- HTTP routing, streams, rate limits, token extraction, the CLI, the server's workspaces and themes: plumbing.
- SHA-256, HMAC, Ed25519, JSON and the zod schemas themselves: parameters, see above.
- Wire rows whose state is text outside the six states: the model's rows carry typed states.
- Roots with scope `all` after a sync: they mix in the node's own read receipts, alerts and checkpoints, which are carried as `localLeaves` and not claimed to converge.
- A peer that writes while it is read: in one sync, and over the pages of `PagedSync`, the peer's tables stay as they are.
- The JSON copy of the seals in a message's row and the cached archive state: both are derived from tables that are modelled.
- Asynchronous interleaving: one call of the pipeline, the resolver, a sync or the bridge is one step of a run.
- The bridge's inbound side, the capture of events from the stream, and the retries of dead letters: a synchronization starts from the queue as it stands.
- The text of a seal's id is modelled as the triple it is printed from, and stored seals are read in the order they were stored, not by a text comparison of their creation times.
- Normalization trims the keys of a payload; the fields the program reads, `law_type` among them, are taken to keep their names.
- The archive the bridge writes to is carried as the ids of its stored messages, apart from the pipeline's tables.
- Database failures inside the resolver, and the events it emits.
- `resolveBridgeConflict`, gossip, the actor registry, censorate, the imperial works and the bridge's adapters: easy members or stubs.
