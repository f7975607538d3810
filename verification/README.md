# Verification of the GCO authority core

A Dafny model of the parts of `gco-spec` that decide what delegated authority is worth: the policy
deployment ledger, the validation and derivation of Governance Context Objects (GCOs), the governed
state store, the runtime seam in front of it, the attestation verifier with its replay cache, and the
coverage arithmetic of the DER harness. `dafny verify dfyconfig.toml` checks the project.

Two things stay uninterpreted. SHA-256 is any function from texts to 64 hexadecimal digits; no lemma
assumes it injective, and where the design leans on it the lemma's conclusion is "equal, or these two
different texts have one digest". Signatures, keys and certificate chains are an oracle that gives a
token's body and says who signed it. Everything around them is concrete: JSON text with its escapes,
ISO time text, `str.split`, `str.splitlines`, code-point key order, first-match searches and last-wins
dictionaries.

| file | follows |
|---|---|
| `Wrappers`, `Text`, `Clock` | results, host-language string operations, UTC instants |
| `Json`, `JsonPrefix`, `JsonGrammar` | `json.dumps` / `json.loads`, what is left of a line cut short or run on, and the reader against the grammar |
| `Models`, `Validator`, `Chains` | GCOs and their digest, one delegation step, chains of any length |
| `Derivation` | minting a child from a request |
| `Gates`, `StateStore`, `Runtime`, `Decisions` | authorisation gates, the store, the runtime object, when each operation is allowed |
| `ReplayCache`, `AttestationChecks` | the bounded cache, verification of claims |
| `ReplayRuns`, `RuntimeRuns`, `StoreRuns`, `RuntimeLaws` | laws of whole runs and of whole delegation paths |
| `LedgerRecord`, `LedgerChain`, `LedgerReplay`, `Ledger`, `LedgerRuns`, `LedgerSessions` | records, hash chain, replay, the ledger object and its file, runs, many sessions on one file |
| `Coverage` | coverage and isolation scores over exact fractions |

Beside the laws, every function the laws are stated through has a lemma that says what it means in
other terms: instants by their calendar fields, texts by the JSON tree they read as, checks by the
condition each stands for and the order in which faults are reported.

Objects that change in place are classes (`PolicyDeploymentLedger`, `GovernedStateStore`,
`InMemoryReplayCache`, `AttestationVerifier`, `GovernanceRuntime`). Each method is proved equal to a
function of the old state; the laws are proved about runs of those functions.

## Main results

* A sealed head pins the whole ledger, and a published head pins a prefix of every longer ledger that
  carries it, unless two different bodies with one hash are produced (`LedgerChain`).
* After any mix of accepted, refused and storage-failing calls the ledger verifies exactly if it did
  before, keeps its old entries in front, and a file in step with it stays in step; a storage failure
  is final; reopening after a torn append finds the old entries, or those and the one being written, or
  refuses to load (`LedgerRuns`). New ledgers are valid (`LedgerRuns.NewIsValid`).
* After any sequence of sessions on one file, with storage failures and refused openings anywhere, a
  file that loads also verifies and holds every record ever acknowledged at its own position; anything
  else in it was left whole by an append that failed. Without failures it holds exactly the acknowledged
  records (`LedgerSessions`).
* Replay as of an instant gives each policy the event that sorts last by time, sequence, identifier and
  position, whatever stable sort is used; it agrees with plain replay under an exact condition on the
  entries (`LedgerReplay`).
* Along every chain of delegations authority only shrinks, tool by tool and mode by mode, and the
  lineage pins the ancestors (`Chains`); a path of sub-calls that the runtime allowed is such a chain
  (`RuntimeLaws`).
* `derive` succeeds on exactly the requests the parent covers, agrees with `validate`, and returns the
  greatest child that stays within the request: the gates allow no other such child more, availability
  of a tool under a blank scope aside (`Derivation`).
* The replay cache answers like the unbounded history of accepted tokens; one token is accepted at most
  once (`ReplayRuns`). Over runs of all the runtime's operations, two allowed operations never rest on
  the same token, so with a replay cache an attestation is good for one operation (`RuntimeRuns`).
* The store is a function of its accepted writes, whatever other operations run in between; reads obey
  the join of all writers' labels; a root's TAINTED or ISOLATED namespace is never read, whatever its
  descendants do, if only they get to write there (`StoreRuns`).

* Every runtime operation is allowed exactly when stated conditions hold, with or without a replay cache,
  and nothing is ever allowed to a GCO without a signed token that fits it (`Decisions`). A verification
  passes exactly on such GCOs (`AttestationChecks`).
* A text reads as a JSON value exactly when the grammar of RFC 8259 has a tree for it, and the hashed
  body, the stored line and the digest text say exactly their own fields (`JsonGrammar`,
  `LedgerRecord`, `Models`).

## Where a law needs a condition

* *A descendant's allowed tool call is allowed to the root.* True for calls that name an operation. For
  a request without tokens, or none, the scope `,` slips through: it has no tokens, so it fits into an
  empty scope, yet it is not blank. `Chains.AvailabilityCanGrow` gives the chain;
  `Chains.ToolCallsReachRoot` gives the exact condition, that the root's own scope is not blank.
* *A derived child is authorised under its parent.* True without a replay cache
  (`RuntimeLaws.DerivedIsAuthorized`). With one, derivation has already spent both attestations, and the
  pair is refused at every later moment, whatever is verified in between
  (`RuntimeLaws.ReplayCacheSpendsDerivation`).
* *A ledger's file loads as its entries.* For a ledger opened from a file that loads, and after any run
  that accepts something: exactly when the text after the file's last line boundary was JSON white space
  at the start (`LedgerRuns.OpenTailDecides`). Otherwise the file never loads again
  (`LedgerRuns.NeverLoadsAgain`). The other case is reachable: an append that fails after writing the
  whole line but not its line feed leaves a file that reopens and verifies, and the next acknowledged
  record makes it unreadable (`LedgerRuns.AcknowledgedThenUnreadable`). Opening gives a ledger in step
  with its file exactly on verifying files without such a line (`LedgerRuns.OpenedIsValid`), and exporting onto
  the ledger's own path puts the two in step again (`LedgerRuns.ExportRoundTrip`).
* *As-of replay is plain replay.* Exactly when, for every policy, the last event appended also decides
  it in time order: it sorts last up to the instant, or it is a deactivation and so is whatever sorts
  last (`LedgerReplay.ReplaysAgreeIff`). Time-monotone ledgers are such, once the instant covers every
  event (`LedgerReplay.AsOfIsPlainReplay`); `LedgerReplay.ReplaysCanDiffer` shows the other case.

## Model

| member | source | states |
|---|---|---|
| Validator.ScopeTokensAreRuns | src/gco/validator.py:96-97 | the tokens of a scope are exactly its maximal runs of characters that are neither white space nor commas |
| Validator.ScopeIsSubsetMeans | src/gco/validator.py:100-101 | one scope is within another exactly when each of its tokens is a token there |
| Validator.AccessAllowsMeans | src/gco/validator.py:57-62 | a mode grants itself and NONE, and WRITE grants everything |
| Validator.RankAtLeastMeans | src/gco/validator.py:64-69 | one label ranks at least as high as another exactly when both are declared and it does not come before it in the order CLEAN, SANITIZED, TAINTED, ISOLATED |
| Validator.MajorMeans | src/gco/validator.py:92-93 | the major version is the text before the first dot |
| Models.DuplicatesIff | src/gco/validator.py:162-170 | comparing a list's length with its set's size detects exactly the repeated keys |
| Models.SearchesAgree | src/gco/validator.py:204-206 | on a list without duplicate keys, the dictionary lookup of the validator and a first-match search find the same item |
| Models.FindFirstMeans | src/gco/state_store.py:68-72 | the search loop finds the first match |
| Models.FindLastMeans | src/gco/validator.py:204-206 | a dictionary made from a list keeps the last match |
| Models.CanonicalTextInjective | src/gco/validator.py:86-89 | the text a GCO digest is taken of determines every field but the attestation |
| Models.CanonicalTextMeans | src/gco/validator.py:86-89 | the digest is taken of compact ASCII JSON with eleven names in code-point order, each with its own field, grants and lineage item by item |
| Models.HashIgnoresAttestation | src/gco/validator.py:86-89 | changing the attestation leaves the digest alone |
| Validator.ValidateMeans | src/gco/validator.py:145-160 | `validate` passes exactly on narrowings: unambiguous lists, same identity, linked span, lineage plus the parent's digest, every tool and permission within the parent's, expiry in range, attested |
| Validator.ValidateRootMeans | src/gco/validator.py:133-143 | `validate_root` passes exactly on unexpired, attested, unambiguous GCOs without parent and lineage |
| Validator.ToolsCheckMeans | src/gco/validator.py:203-212 | the tool loop passes exactly when each tool is held by the parent with more depth and a covering scope |
| Validator.PermissionsCheckMeans | src/gco/validator.py:214-225 | the permission loop passes exactly when the parent holds each namespace with a mode that allows it and a label ranked no higher |
| Validator.LineageCheckMeans | src/gco/validator.py:195-201 | the lineage check passes exactly on the parent's lineage plus the parent's digest, within the limit |
| Validator.ToolFault | src/gco/validator.py:203-212 | one more tool grant is accepted exactly when the parent covers it, and otherwise refused for a missing tool, too much depth or a wider scope |
| Validator.PermissionFault | src/gco/validator.py:214-225 | one more permission is accepted exactly when the parent covers it, and otherwise refused for its mode or its label |
| Validator.OneFieldEdited | src/gco/validator.py:145-235 | a valid child with one field replaced gets that field's own error or is still valid; only its own span identifier may be anything |
| Validator.ValidateOrder | src/gco/validator.py:145-160 | with several faults `validate` reports the first in the order lists, version, identity, linkage, lineage, tools, permissions, expiry, attestation |
| Validator.ValidateRootOrder | src/gco/validator.py:133-143 | and `validate_root` in its own order |
| Gates.SearchMeans | src/gco/runtime.py:96-108 | on any list, the search loop finds whether the first grant for the tool with depth left and a non-blank scope serves the request |
| Gates.SearchDistinct | src/gco/runtime.py:96-108 | with one grant per tool, whether any grant does |
| Gates.CoveredCalls | src/gco/runtime.py:93-108 | if one GCO's grants are covered by another's, a call the gate allows the first it allows the second exactly when the second's scope for the tool is not blank |
| Gates.ParseModeMeans | src/gco/runtime.py:223-226 | the four mode names are the texts of the modes |
| Gates.StateGateMeans | src/gco/runtime.py:227-240 | the gate grants a mode exactly when it is not NONE and the first permission for the namespace is for it or for WRITE |
| Chains.ChainNarrows | src/gco/validator.py:145-160 | over n validated links every tool keeps a scope within the root's with depth at least n lower, every mode is allowed by the root's, labels only rise, expiry only falls, identity stays |
| Chains.ChainLengthBounded | src/gco/validator.py:195-210 | a chain is no longer than the lineage limit, nor than the root's depth for any tool still held at its end |
| Chains.ToolCallsReachRoot | src/gco/runtime.py:93-108 | a call the gate allows at the end of a chain is allowed to the root exactly when the root's scope for the tool is not blank |
| Chains.ToolCallsNarrow | src/gco/runtime.py:93-108 | a call naming at least one operation that the gate allows at the end of a chain is allowed to the root at the same moment |
| Chains.AvailabilityCanGrow | src/gco/runtime.py:98-101 | a chain whose end may call a tool that its root may not, when no operation is named |
| Chains.StateAccessNarrows | src/gco/runtime.py:222-240 | a mode the gate grants at the end of a chain it grants to the root, and the label written there ranks no lower than the root's |
| Chains.LineageIsAncestry | src/gco/validator.py:195-201 | the lineage at the end of a rooted chain is the list of its ancestors' digests in order |
| Chains.LineagePinsAncestry | src/gco/validator.py:86-89 | equal lineages mean equally long chains with the same ancestors, attestations aside, or a collision between two of them |
| Derivation.BuildTools | src/gco/derivation.py:98-118 | the tool loop returns the capped grants, or the error of the first request it cannot meet |
| Derivation.BuildPermissions | src/gco/derivation.py:120-134 | the permission loop returns the requested permissions, or the error of the first one not covered |
| Derivation.DeriveToolsMeans | src/gco/derivation.py:98-118 | tools are derived exactly when all are covered with depth to pass on, each with the requested scope and the smaller of requested and remaining depth |
| Derivation.DerivePermissionsMeans | src/gco/derivation.py:120-134 | permissions are derived exactly when all are within the parent's, and then unchanged |
| Derivation.DeriveChild | src/gco/derivation.py:53-86 | the method with the loops computes the derivation function |
| Derivation.DraftMeans | src/gco/derivation.py:53-75 | the request's own checks pass exactly when the lineage has room, nothing repeats and every item is covered; the draft then holds the capped request |
| Derivation.DraftCanOnlyExpire | src/gco/derivation.py:76-79 | once those checks pass, validating the draft under a non-empty attestation can fail only by expiry |
| Derivation.DeriveSucceedsIff | src/gco/derivation.py:53-86 | `derive` succeeds exactly when those checks pass, the clamped expiry is ahead at both clock readings and the issued attestation is not empty |
| Derivation.DerivedNarrows | src/gco/derivation.py:84-86 | a derived child is a narrowing of its parent |
| Derivation.DerivedFields | src/gco/derivation.py:62-86 | every field of a derived child: the issued attestation, its own span, the parent's version and identity, the request's permissions, the capped tools, the earlier expiry |
| Derivation.DeriveOrder | src/gco/derivation.py:53-86 | with several faults `derive` reports its own checks in order, the first tool, the first permission, the expiry, the empty attestation |
| Derivation.DeriveIsMaximal | src/gco/derivation.py:98-134 | every grant of a child that validates and stays within the request is covered, token for token, by one of the derived child |
| Derivation.DerivedServesMost | src/gco/derivation.py:98-134 | so every state mode the gates allow such a child they allow the derived one, and every tool call too, except where the derived scope for the tool is blank and the call names no operation |
| Derivation.DerivedStaysWithin | src/gco/derivation.py:72-134 | the derived child stays within the request |
| StateStore.GovernedStateStore.Write | src/gco/state_store.py:26-37 | the new store is the write function of the old one, and a refused write changes nothing |
| StateStore.GovernedStateStore.Read | src/gco/state_store.py:39-57 | reading answers as the read function of the stored state |
| StateStore.StoreWriteMeans | src/gco/state_store.py:26-37 | a write is accepted exactly under WRITE, or under APPEND to a new key, by the first permission for the namespace |
| StateStore.StoreReadExactly | src/gco/state_store.py:39-57 | a read gives the value exactly when the namespace may be read, the key is there and its label may be seen; otherwise which refusal |
| StateStore.NarrowedGrant | src/gco/runtime.py:251-260 | narrowing to append changes the mode of the matching grant and nothing else about it |
| StateStore.GateAgreesWithStore | src/gco/runtime.py:222-240 | the runtime's gate and the store's own access checks agree on every permission list |
| Runtime.GovernanceRuntime.AuthorizeToolCall | src/gco/runtime.py:79-112 | the decision and the cache afterwards are the tool-call function of the state; the store is untouched |
| Runtime.GovernanceRuntime.AuthorizeStateAccess | src/gco/runtime.py:114-130 | the decision and the cache afterwards are the state-access function of the state; the store is untouched |
| Runtime.GovernanceRuntime.ReadState | src/gco/runtime.py:132-153 | the decision and the state afterwards are the read function; the store is untouched |
| Runtime.GovernanceRuntime.WriteState | src/gco/runtime.py:155-185 | the decision and the state afterwards are the write function |
| Runtime.GovernanceRuntime.AuthorizeSubcall | src/gco/runtime.py:60-77 | the decision and the cache afterwards are the sub-call function |
| Runtime.GovernanceRuntime.DeriveForSubcall | src/gco/runtime.py:187-210 | the decision and the cache afterwards are the derive function |
| Decisions.ToolCallMeans | src/gco/runtime.py:79-112 | for every cache a tool call is allowed exactly when the GCO verifies, has not expired and its first usable grant serves the request; otherwise which denial |
| Decisions.StateAccessMeans | src/gco/runtime.py:114-130 | the same for state access, by the name of the mode |
| Decisions.WriteMeans | src/gco/runtime.py:155-185 | the same for a write, and what it stores |
| Decisions.ReadExactly | src/gco/runtime.py:132-153 | the same for a read, and what it gives |
| Decisions.SubcallMeans | src/gco/runtime.py:60-77 | a sub-call is allowed exactly when parent and child verify in turn and the child narrows the parent |
| Decisions.DerivationMeans | src/gco/runtime.py:187-210 | a derivation is allowed exactly when the parent verifies, `derive` succeeds, the child verifies and is not expired at the last reading |
| Decisions.PermittedIsTrusted | src/gco/runtime.py:60-210 | with a replay cache or without, every GCO an allowed operation presents shows a signed token that fits it |
| StoreRuns.StoreIsHistory | src/gco/state_store.py:33-37 | after any run a key holds the last accepted value, under a label that ranks as the join of all its writers' labels, an unrankable one absorbing |
| StoreRuns.SameKeys | src/gco/state_store.py:33-37 | values and labels always have the same keys |
| StoreRuns.ReadMeans | src/gco/state_store.py:39-57 | a read returns a value exactly when the reader may read, it was written last, and every label ever written there is within SANITIZED and the reader's own; it is refused for taint exactly when some label is not |
| StoreRuns.TaintMeans | src/gco/state_store.py:59-66 | in any run a permitted label look-up finds a label exactly when the key was ever written; it ranks as the join of all writers' labels and tells whether the value could be read |
| StoreRuns.JoinBounded | src/gco/state_store.py:74-83 | a join stays within a bound exactly when every joined label is ranked within it |
| StoreRuns.OverwriteNeedsWrite | src/gco/runtime.py:171-178 | a stored value changes only by an accepted write in mode "write" to that key by a subject granted WRITE |
| StoreRuns.AppendNeverOverwrites | src/gco/state_store.py:31-32 | a write in mode "append" to an existing key changes nothing, whatever the grant |
| StoreRuns.ValueStable | src/gco/runtime.py:171-178 | a stretch of a run without mode-"write" calls on a key leaves its value alone |
| StoreRuns.LabelNeverFalls | src/gco/state_store.py:74-83 | no step lowers a stored label |
| StoreRuns.LabelsBoundedByRoot | src/gco/validator.py:214-225 | if every accepted write to a namespace is a descendant's of one root, every label written there is the root's or ranks at least as high |
| StoreRuns.StoredLabelsAboveRoot | src/gco/state_store.py:33-37 | then every stored label there ranks at least as high as the root's |
| StoreRuns.QuarantineHolds | src/gco/state_store.py:52-56 | and if the root's label there is TAINTED, ISOLATED or unrankable, no read of the namespace ever succeeds |
| ReplayCache.InMemoryReplayCache.EvictExpired | src/gco/attestation.py:85-88 | the eviction loop removes exactly the expired entries |
| ReplayCache.InMemoryReplayCache.CheckAndRecord | src/gco/attestation.py:75-83 | answer and entries afterwards are one atomic admission |
| AttestationChecks.AttestationVerifier.Verify | src/gco/attestation.py:110-125 | outcome and cache afterwards are the verification function |
| AttestationChecks.BindingsMean | src/gco/attestation.py:287-330 | the claims pass exactly when subject and digest name the GCO, the audience meets the expected one, and the token is current |
| AttestationChecks.VerifyMeans | src/gco/attestation.py:110-194 | a verification passes exactly on a token signed by a trusted key or a trusted certificate of the GCO's identity whose body fits the GCO, and with a cache has an identifier no live entry has while there is room; and what the cache holds then |
| AttestationChecks.VerifyErrors | src/gco/attestation.py:110-340 | which error a failing verification reports |
| AttestationChecks.VerifiedMeans | src/gco/attestation.py:164-194 | a passing verification rests on a signed body that names this GCO, for X.509 on a trusted leaf with its identity |
| AttestationChecks.AttestationPinsGco | src/gco/attestation.py:296-300 | two GCOs that verify with one token, in whatever formats, are the same apart from the attestation, or their digests collide |
| ReplayRuns.CallMeans | src/gco/attestation.py:331-335 | a verification that fails before the replay step leaves the cache alone; any other makes one admission |
| ReplayRuns.EvictionKeepsLive | src/gco/attestation.py:85-88 | eviction never removes a live entry |
| ReplayRuns.RunSound | src/gco/attestation.py:75-88 | over every run with a clock that never goes back, the cache is within its bound and holds exactly the accepted tokens unexpired when last consulted |
| ReplayRuns.AcceptedAtMostOnce | src/gco/attestation.py:305-334 | of two accepted calls with one identifier the first token had expired, so no token is accepted twice |
| ReplayRuns.TokenServesOnce | src/gco/attestation.py:305-334 | a token text passes at most once in a run, whatever GCO shows it and in whatever format |
| ReplayRuns.AnswersLikeHistory | src/gco/attestation.py:350-355 | a call is accepted exactly when all other checks pass, no live accepted token has its identifier, and fewer than the maximum are live |
| ReplayRuns.AcceptsExactly | src/gco/attestation.py:110-355 | the same, by the GCO and its token: trusted, with an identifier no live accepted token has, and fewer than the maximum live |
| RuntimeRuns.OpCalls | src/gco/runtime.py:60-210 | every operation changes the cache by its own verifications and nothing else, and is allowed only if all of them pass |
| RuntimeRuns.TraceCache | src/gco/runtime.py:60-210 | after any run of operations the cache is the one their verifications leave, so the laws of verifier runs hold for it |
| RuntimeRuns.AllowedShareNoToken | src/gco/runtime.py:60-210 | on a clock that never goes back, no two verifications behind allowed operations of a run rest on the same token |
| RuntimeRuns.OneOperationPerToken | src/gco/runtime.py:60-210 | of two operations in a run whose subject shows the same token at most one is allowed |
| RuntimeLaws.DerivedIsAuthorized | src/gco/runtime.py:187-210 | without a replay cache a derived child is authorised exactly while both attestations verify and it has not expired |
| RuntimeLaws.ReplayCacheSpendsDerivation | src/gco/runtime.py:192-200 | with one, the derived pair is refused at every later moment, whatever was verified in between |
| RuntimeLaws.AuthorizedPathIsRooted | src/gco/runtime.py:60-77 | a path of allowed sub-calls from a valid root is a validated chain |
| RuntimeLaws.RuntimeToolCallsNarrow | src/gco/runtime.py:79-108 | a tool call naming an operation that the runtime allows at the end of such a path passes the root's gate at the same moment |
| Clock.IsoRoundTrip | src/gco/policy_ledger.py:118-119 | the text of an instant determines the instant |
| Clock.IsoMeans | src/gco/policy_ledger.py:118-119 | where each part of an instant's text stands and that it is its field in decimal |
| Clock.LessMeans | src/gco/validator.py:227-231 | one instant is before another exactly when the first of year, month, day, hour, minute, second and microsecond that differs is smaller, and equal instants have equal fields |
| Json.DecodeEncode | src/gco/policy_ledger.py:385-388 | loading dumped JSON gives the value back, ASCII-escaped or not |
| Json.EncodeMeans | src/gco/policy_ledger.py:122-125 | the text of any value: no space, commas between items, a colon after a name, fields in order |
| Json.EscapeMeans | src/gco/policy_ledger.py:122-125 | how each character is written, as itself, behind a backslash, as `\uXXXX` or as a surrogate pair |
| JsonGrammar.DecodeMeans | src/gco/policy_ledger.py:408-412 | a text reads as a value exactly when the grammar of RFC 8259 has a tree for it, white space around it aside |
| Json.EncodeInjective | src/gco/policy_ledger.py:122-125 | different values never give the same JSON text |
| Json.EncodePrintable | src/gco/policy_ledger.py:352-357 | ASCII-escaped JSON is printable ASCII throughout, whatever its strings hold |
| JsonPrefix.CutShort | src/gco/policy_ledger.py:402-414 | no proper prefix of an object's text is a document |
| JsonPrefix.RunOn | src/gco/policy_ledger.py:402-414 | an object's text followed by anything but white space is no document |
| LedgerRecord.SortedKeysSorted | src/gco/policy_ledger.py:124-125 | metadata keys are written once each in increasing code-point order |
| LedgerRecord.RecordNamesSorted | src/gco/policy_ledger.py:101-125 | the field names are written in key order |
| LedgerRecord.BodyTextInjective | src/gco/policy_ledger.py:101-125 | different bodies, metadata included, never give the same canonical text |
| LedgerRecord.BodyTextMeans | src/gco/policy_ledger.py:101-125 | the hash is taken of compact JSON with the eleven body names in code-point order, each with its own field |
| LedgerRecord.RecordLineMeans | src/gco/policy_ledger.py:385-388 | the stored line is compact ASCII JSON with those fields and the entry's own hash |
| LedgerRecord.EventNames | src/gco/policy_ledger.py:49-54 | the three event names, and nothing else, name events |
| LedgerRecord.ReadLineMeans | src/gco/policy_ledger.py:74-99 | a line reads as a record exactly when it is a JSON object without unknown names whose fields are the record's and meet its validators |
| LedgerRecord.LineRoundTrip | src/gco/policy_ledger.py:406-414 | reading a stored line gives the record back |
| LedgerRecord.LineShape | src/gco/policy_ledger.py:385-390 | a stored line holds no line boundary and no beginning of it is blank |
| LedgerChain.SealedHeadPinsLedger | src/gco/policy_ledger.py:297-321 | two ledgers of any lengths that verify against one head are equal, or two of their entries have different bodies with one hash |
| LedgerChain.CheckpointPinsPrefix | src/gco/policy_ledger.py:297-321 | a verifying ledger that carries a sealed head anywhere starts with the sealed ledger, or a collision is found |
| LedgerChain.ChainMeans | src/gco/policy_ledger.py:297-313 | the chain holds exactly when every entry stands at its sequence number, names its predecessor's hash or 64 zeros, and carries the hash of its own body |
| LedgerChain.BreakMeans | src/gco/policy_ledger.py:301-314 | which fault of an entry is reported |
| Ledger.PolicyDeploymentLedger.Verify | src/gco/policy_ledger.py:297-321 | the loop passes exactly on usable ledgers that verify, and names the first broken entry and its fault otherwise |
| Ledger.PolicyDeploymentLedger.RecordActivation | src/gco/policy_ledger.py:202-270 | result and state afterwards are the recording function |
| Ledger.PolicyDeploymentLedger.Append | src/gco/policy_ledger.py:381-396 | an unusable ledger refuses; otherwise the line reaches the file before the entry reaches the list, and a storage failure sets the latch |
| Ledger.PolicyDeploymentLedger.LoadJsonl | src/gco/policy_ledger.py:402-414 | the loading loop reads exactly what the loading function reads |
| Ledger.PolicyDeploymentLedger.Load | src/gco/policy_ledger.py:178-181 | opening succeeds exactly when the file loads and, unless told otherwise, verifies |
| Ledger.PolicyDeploymentLedger.ActivePolicies | src/gco/policy_ledger.py:323-342 | plain replay of the entries, unless unusable |
| Ledger.PolicyDeploymentLedger.ActivePoliciesAt | src/gco/policy_ledger.py:333-341 | replay of the events up to an instant in stable order of time, sequence and identifier, unless unusable |
| Ledger.PolicyDeploymentLedger.LatestForPolicy | src/gco/policy_ledger.py:344-350 | the backwards loop finds the last event of the policy |
| Ledger.PolicyDeploymentLedger.ExportJsonl | src/gco/policy_ledger.py:359-367 | the target, which may be the ledger's own file, holds the entries' lines, each ended by a line feed |
| Ledger.Snapshot | src/gco/policy_ledger.py:141-150 | the fold loop computes the active map |
| LedgerReplay.LatestMeans | src/gco/policy_ledger.py:344-350 | the latest event is the one no later event of the policy follows |
| LedgerReplay.ActiveIsLatest | src/gco/policy_ledger.py:141-150 | a policy is active exactly when its last event is not a deactivation, with that event as its record |
| LedgerReplay.NoLaterMeans | src/gco/policy_ledger.py:336-339 | events sort by recorded time, then sequence, then identifier in code-point order |
| LedgerReplay.SortedReplayMeans | src/gco/policy_ledger.py:333-341 | whatever stable sort orders the events, replay picks each policy's greatest by time, sequence, identifier and position |
| LedgerReplay.AsOfMeans | src/gco/policy_ledger.py:333-341 | as of an instant a policy is active with its greatest event up to then, if that is no deactivation, on every list of records |
| LedgerReplay.LaterEventsChangeNothing | src/gco/policy_ledger.py:333-341 | events recorded after the instant change nothing as of it |
| LedgerReplay.ReplaysAgreeIff | src/gco/policy_ledger.py:333-342 | the two replays agree exactly when the last event appended for each policy also decides it in time order |
| LedgerReplay.AsOfIsPlainReplay | src/gco/policy_ledger.py:333-342 | so they do on time-monotone ledgers once the instant covers every event |
| LedgerReplay.ReplaysCanDiffer | src/gco/policy_ledger.py:333-342 | an event appended last but dated first wins one replay and loses the other |
| LedgerRuns.RecordMeans | src/gco/policy_ledger.py:216-270 | a request is accepted exactly when the ledger is usable, the request well formed and the disk stores it; the record carries the request's fields, position, predecessor and own hash |
| LedgerRuns.RecordErrors | src/gco/policy_ledger.py:216-270 | which error a refused request gets, and that only a storage failure changes anything |
| LedgerRuns.LoadMeans | src/gco/policy_ledger.py:402-414 | a file loads as the records on its lines that are not blank, in order, exactly when each reads; otherwise the first that does not is reported by number |
| LedgerRuns.ExportRoundTrip | src/gco/policy_ledger.py:359-367 | loading an export gives back exactly the entries, and the exported file is ready for another line |
| LedgerRuns.AppendReadable | src/gco/policy_ledger.py:389-390 | after one more line the file loads as the old entries and the new exactly when its unfinished last line was JSON white space, and not at all otherwise |
| LedgerRuns.LoadedWellFormed | src/gco/policy_ledger.py:402-414 | every record a file loads as is well formed |
| LedgerRuns.OpenedIsValid | src/gco/policy_ledger.py:172-181 | so opening a file that loads gives a valid ledger in step with it exactly when it verifies and the text after its last line boundary is JSON white space |
| LedgerRuns.NewIsValid | src/gco/policy_ledger.py:165-181 | a new ledger is valid, with an empty file behind it or none |
| LedgerRuns.StepKeepsValid | src/gco/policy_ledger.py:202-270 | every call keeps the old entries, verifies exactly if it did before, and keeps a file in step |
| LedgerRuns.RunKeepsLedger | src/gco/policy_ledger.py:202-270 | so does every run, and the file grows by exactly the new entries' lines, up to a torn line after a storage failure |
| LedgerRuns.OpenTailDecides | src/gco/policy_ledger.py:381-414 | from any file that loads, after a run that accepts something, the file loads as the entries exactly when the text after its last line boundary was JSON white space, and otherwise fails at that line |
| LedgerRuns.NeverLoadsAgain | src/gco/policy_ledger.py:381-414 | in that other case no later run makes it load |
| LedgerRuns.FailureLatches | src/gco/policy_ledger.py:393-400 | after a storage failure no attempt succeeds and nothing changes any more |
| LedgerRuns.TornAppend | src/gco/policy_ledger.py:384-395 | reopening after a failed append finds the old entries, or those and the one being written, or refuses to load, by how much the disk kept and what the file ended with |
| LedgerRuns.AcknowledgedThenUnreadable | src/gco/policy_ledger.py:384-395 | a line kept whole without its line feed reopens and verifies, and the next acknowledged record makes the file unreadable |
| LedgerSessions.SessionLeaves | src/gco/policy_ledger.py:381-414 | what a session leaves loads, if at all, as its entries, or as those and the one record whose append failed with its line whole |
| LedgerSessions.AcknowledgedSurvive | src/gco/policy_ledger.py:381-414 | after any sessions, if the file loads it verifies, holds every acknowledged record at its own sequence position, and anything else was left by a failed append |
| LedgerSessions.NothingLostWithoutFailure | src/gco/policy_ledger.py:381-414 | if the disk never fails, the file loads as exactly the acknowledged records and is ready for more |
| Coverage.Scan | src/gco/der_harness.py:82-110 | the counting loops count the covered items and log the others |
| Coverage.ComputeCoverage | src/gco/der_harness.py:73-119 | metrics and log are those of the flattened transcripts |
| Coverage.CoverageConserved | src/gco/der_harness.py:82-110 | in each category counted units and missing entries add up to the total, and the unsafe entries are the sub-calls judged unsafe |
| Coverage.UnitsMean | src/gco/der_harness.py:74-79 | the units are those of each transcript, in order, transcript after transcript |
| Coverage.CoveredMeans | src/gco/der_harness.py:82-110 | covered units are those with a GCO, or with one for every input |
| Coverage.LogMeans | src/gco/der_harness.py:80-110 | the log holds exactly the entries that are due, each once, by category, index and reason; a label wins over the judge |
| Coverage.ScoresMean | src/gco/der_harness.py:112-132 | a score times its total is what is covered, and the overall score times the sum of the four inverses is four |
| Coverage.MeanBetween | src/gco/der_harness.py:129-132 | the overall score lies between any bounds of the category scores and is zero exactly when one of them is |
| Coverage.CompleteIffNothingMissing | src/gco/der_harness.py:112-119 | the overall score is one exactly when the log has no missing entry |
| Coverage.RecursiveScoreMatchesLog | src/gco/der_harness.py:49-66 | the recursive score is the share of sub-calls without an unsafe entry |
| Coverage.IsolationMeans | src/gco/der_harness.py:49-53 | the isolation score is the share of safe transcripts, zero when there are none |

## Left out

- Signature, JWK and X.509 checks and `src/gco/trust.py`: an oracle for a token's body and for what signed it; a certificate chain's verdict may depend on the time.
- SHA-256 and UTF-8: one uninterpreted function from texts to digests. Strings hold Unicode scalar values; a lone surrogate, which cannot be encoded, does not occur.
- Pydantic parsing and coercion: GCOs and requests arrive typed, with access modes among the four declared; labels may be any text. Errors for malformed input are not modelled.
- LedgerRecord.LineRoundTrip: the reader takes the JSON the ledger writes, in any key order and spacing; booleans, floats, negative numbers and other date spellings that a foreign file may hold count as malformed.
- Time zones: every instant is UTC. Rounding of numeric date claims: a claim converts to an instant or is out of range.
- Clocks, identifiers, issued attestations and the disk's verdict on a write are arguments. Directories, file permissions and missing files are not modelled; a missing file is an empty one.
- Threads: the replay cache's lock makes each call one step.
- Exception messages and catch-all handlers: a decision carries its code only. An attestation authority that raises is not modelled.
- `record_from_gco`: the same append without anything new. Sessions on one file do not export onto it.
- `score_recursion`'s difference of two scores, `src/gco/cli.py`, `src/gco_mcp/`, `examples/` and the audit scripts.
- Float rounding in the harness: fractions are exact.
