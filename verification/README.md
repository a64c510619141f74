# redsim: verified models

redsim is a platform for adversarial evaluation of models and endpoints. This project models the parts
of it that carry hard state or arithmetic of their own, and proves what they promise, in Dafny 4.11.
`dafny verify dfyconfig.toml` checks all of it.

| files | what they model |
|---|---|
| `AuditChain`, `AuditFile`, `AuditProtocol`, `AuditRows`, `AuditPostgres`, `AuditCommits`, `AuditAppends` | the hash-chained audit log: the verifier, the single-file writer, threads interleaving its steps, the event rows, the database writer with its cached heads, which of its commits are refused, and that its appends get through |
| `TokenBucket`, `Frames`, `Broker` | the endpoint broker: the rate limiter, the socket frames, and the budgeted, retrying predict request with its counters |
| `Addresses`, `HostNames`, `Networks`, `SoundLibrary`, `Decimals`, `Allowlist`, `PinStore`, `Pins`, `Url`, `UrlGrammar`, `EgressRules` | the egress policy: hosts and address classes, the two allowlist algorithms, the per-job pins, the registration URL and its normal form; and, in `UrlGrammar` and `EgressRules`, what all of it accepts and refuses, told on the URL's text, the entries as written and the traits of addresses |
| `Compare`, `Grouping`, `PairTable`, `CompareRuns`, `CompareRules` | the pairwise comparability rule, the greedy grouping and the all-pairs comparison for any such rule, what they give for the runs of a batch, and the rule told on the records' own mappings |
| `Batcher` | the two batching log writers, serially and under any number of threads |
| `Plugins` | the id-keyed registry and the memoised plugin loader |
| `Evaluation` | first success over an eps grid, and per-class counts |
| `Foundry` | the transactional push |
| `Json`, `Octets`, `Wrappers` | JSON values with string keys; bytes and hexadecimal text; `Option` and `Result` |

Code that updates state in place is a class or a method with loops, proved against a function of the old
state; what the source promises is then proved about that function. Protocols of several threads are
state machines over their atomic steps, with theorems about every run.

## Hypotheses

- SHA-256 is an arbitrary function of the previous hash and the payload. Tamper evidence is stated as a
  reduction: two histories under one head are equal, or two inputs hashed for them collide.
- Audit details are JSON values with string keys, so dumping and loading them is the identity.
- Writing one line is atomic, and one directory has one writer instance, which owns the locks.
- A commit is atomic and the UNIQUE constraints hold. On Postgres a row selected for update is locked until its
  transaction ends; sqlite locks no rows. Of the safety theorems only `LockedIsCurrent` uses the locks.
- The clock never runs backwards, and sleeping w seconds advances it by at least w.
- Adding to a counter is atomic.
- `ipaddress` is a record of functions. `Addresses.Sound` states the whole contract the proofs use: an
  address prints as text that reads back as itself, and so on. Zone ids are outside of it. `SoundLibrary` meets it.
- JSON text of frames reads back as the payload it was made from (`Frames.Faithful`).
- Plugin factories and the signature verifier give the same result each time; a factory makes a new
  adapter on every call.

## Where the code and its documentation part

- `allowlist_match` says it accepts what `is_target_allowed` accepts; it also accepts untidy entries
  (`Allowlist.UntidyEntriesDisagree`). Which entries part them is decided by `Allowlist.AlikeIff`; on the
  tidied list they always agree (`Allowlist.AllowlistsAgree`).
- `comparability_groups` says the pairwise rule decides membership; in a batch with a bridged clash of
  settings hashes it does not (`CompareRuns.GroupsAreClassesIff`). It says `unchanged_variables` are those
  "every pair of the group shares"; for a group whose first member misleads, some batches make that wrong
  (`CompareRuns.ReportsPairsIff`).
- The loader says it is idempotent; it is, unless a candidate that repeats an earlier key is loaded after
  all, because the earlier entry point of its key was rejected (`Plugins.LoadIsIdempotentIff`).
- `measure` says the per-class `n` sum to `n`; they do exactly when the labels and names fit
  (`Evaluation.PerClassSumsIff`).

## Model

| member | source | states |
|---|---|---|
| `AuditChain.VerifyChain` | redsim/audit/chain.py:390-431 | accepts exactly the valid chains; otherwise stops at the first bad record, names its 1-based position, its `seq` and the first failing check, and everything before it is a valid chain; the chain id is the first one present among the records read |
| `AuditChain.FaultTold` | redsim/audit/chain.py:400-428 | which label a bad record gets: the first of number, previous hash, schema version 1 and own hash that is wrong, in this order |
| `AuditChain.FirstChainIdTold` | redsim/audit/chain.py:398-399 | the chain id of a report is null exactly when no record read has one, and otherwise that of the first that has |
| `AuditChain.ValidChainExtends` | redsim/audit/chain.py:403-430 | one more record keeps a chain valid exactly when the verifier's checks pass on it against the chain's length and last hash |
| `AuditChain.HeadDeterminesHistory` | redsim/audit/chain.py:82-96 | two valid chains with the same last hash are equal record by record, or two of the inputs actually hashed for them form a collision: no edit, insertion, deletion or reordering below a fixed head verifies |
| `AuditChain.PrefixOfValidChain` | redsim/audit/chain.py:398-431 | validity is closed under prefixes (so truncation alone is not detected) |
| `AuditFile.ChainIdSeparates` | redsim/audit/chain.py:117-125 | two events share a chain only if they agree on the run id, else on the project id, else have neither |
| `AuditFile.ChainTold` | redsim/audit/chain.py:117-125 | the chain of an event: its run's, else its project's, else the one chain of the rest; an empty id counts as none |
| `AuditFile.TailTold` | redsim/audit/chain.py:183-208 | when the tail of a chain can be made out: all its lines have both fields, the last number is an integer or a truth value, the last hash a text or null; and which tail that is |
| `AuditFile.JsonlAuditWriter.Last` | redsim/audit/chain.py:183-200 | the full scan of the interleaved file keeps number and hash of the last line of one chain, skipping foreign lines, and fails when a line of the chain lacks one of them |
| `AuditFile.JsonlAuditWriter.Append` | redsim/audit/chain.py:202-233 | appends exactly one line, made after the chain's tail; every chain of a written file stays valid and numbered; a chain whose tail cannot be made out fails and writes nothing |
| `AuditFile.JsonlAuditWriter.ReadChain` | redsim/audit/chain.py:235-249 | yields the lines of one chain, in file order |
| `AuditFile.SealedRecord` | redsim/audit/chain.py:210-229 | the stored hash is what a reader recomputes from the stored record, although the record was hashed before it held the hash |
| `AuditFile.EveryFieldIsHashed` | redsim/audit/chain.py:208-229 | no argument of an append is left out of what is hashed: equal hashed fields mean the same chain, request, time, number and previous hash |
| `AuditFile.MakeRecordContinues` | redsim/audit/chain.py:208-229 | the record made after the tail of a written chain continues that chain |
| `AuditFile.AppendKeepsFile` | redsim/audit/chain.py:177-229 | appending to one chain keeps all the chains of the shared file valid and gap-free |
| `AuditProtocol.StepKeepsInv` | redsim/audit/chain.py:177-233 | every step of every thread (take lock, scan, build, write, release) keeps: one lock per chain, one owner per lock, every scan still current, every chain valid |
| `AuditProtocol.EveryInterleavingVerifies` | redsim/audit/chain.py:202-249 | after any schedule of any number of threads over any chains, each chain read back is valid, numbered 1..n without fork, and holds its own lines only |
| `AuditProtocol.ScanNeverFails` | redsim/audit/chain.py:183-208 | a thread that holds the lock always finds its chain readable |
| `AuditProtocol.StepsAreEnabled` | redsim/audit/chain.py:177-233 | when a thread can take each step: the phases follow one another, and only taking the lock ever waits |
| `AuditProtocol.NoDeadlock` | redsim/audit/chain.py:177-233 | in every reachable state a thread waiting for its chain's lock can take it, or waits for another thread of the same chain that can take its own next step |
| `AuditProtocol.AppendGetsThrough` | redsim/audit/chain.py:202-233 | whatever the other threads are doing, a thread whose chain's lock is free can take the steps of an append one after the other; they add exactly the record made after the chain's tail, free the lock and move no other thread |
| `AuditProtocol.MutualExclusion` | redsim/audit/chain.py:177-181 | at most one thread at a time is inside the critical section of one chain |
| `AuditProtocol.HistoryOnlyGrows` | redsim/audit/chain.py:230-231 | a chain read earlier in a run is a prefix of the chain read later |
| `AuditProtocol.AcknowledgedEventsStay` | redsim/audit/chain.py:230-233 | an event whose append got past its write is in the file for good |
| `AuditProtocol.SameTailForks` | redsim/audit/chain.py:207-208 | why the lock is needed: two appends of one chain made after the same scan always leave an invalid chain |
| `Octets.HexRoundTrip` | redsim/audit/chain.py:311-328 | a digest survives being stored as bytes and rendered as hexadecimal text |
| `AuditRows.OneStringPerInstant` | redsim/audit/chain.py:99-114 | the timestamp string read back equals the one hashed, for a naive value and in any session zone |
| `AuditRows.SameTextSameInstant` | redsim/audit/chain.py:99-114 | two datetimes have one text exactly when they are one instant, a naive one being taken as UTC |
| `AuditRows.ReadRebuildsHashedRecord` | redsim/audit/chain.py:349-375 | reading a row back rebuilds, field by field, the record that was hashed |
| `AuditPostgres.CommitIsFileAppend` | redsim/audit/chain.py:300-345 | a commit does to the list of hashed records exactly what the file writer's append does to its file |
| `AuditPostgres.CommitKeepsInv` | redsim/audit/chain.py:300-345 | a commit that no constraint refuses keeps every cached head equal to a full scan and every chain's rows equal to its events, whatever the transaction had read |
| `AuditPostgres.RunKeepsInv` | redsim/audit/chain.py:274-281 | the same after any interleaving of begun, committed, refused and rolled-back appends, with row locks (Postgres) and without (sqlite): the constraints alone catch every fork |
| `AuditPostgres.DatabaseRefinesFile` | redsim/audit/chain.py:288-375 | for any run, any backend and any ordered query result: the rows read back are the hashed records, they form a valid chain, and the cached head is the tail a scan of them finds |
| `AuditRows.QueryInOrder` | redsim/db/models.py:334-337 | the k-th row of a chain, ordered by `seq`, is the row numbered k: no number is missing or used twice |
| `AuditCommits.RefusedIff` | redsim/db/models.py:334-337 | in every reachable state a commit is refused exactly when the chain's head has moved since the transaction read it, or its hash collides with one already in the chain |
| `AuditCommits.LockedIsCurrent` | redsim/audit/chain.py:300-309 | with row locks a head has moved only for a transaction that found none and lost the race to create it |
| `AuditCommits.ForkIsRefused` | redsim/audit/chain.py:274-281 | without row locks two transactions of one chain can read the same head; once one has committed, the constraints refuse the other |
| `AuditAppends.BeginSeesHead` | redsim/audit/chain.py:301-310 | when a transaction can begin (always, but on Postgres not while another holds the head row), and that it has then read its chain's head exactly when the chain has one |
| `AuditAppends.EndsAreEnabled` | redsim/audit/chain.py:301-345 | an open transaction can always commit or roll back, and rolled back it leaves nothing behind |
| `AuditAppends.AppendGetsThrough` | redsim/audit/chain.py:300-345 | begun and committed with nothing between, an append adds exactly the event the file writer would, as one row that reads back as that event and becomes the head; only an equal hash already in the chain keeps it out |
| `AuditAppends.EveryAppendGetsThrough` | redsim/audit/chain.py:300-345 | the same after any run, whatever other transactions are open |
| `TokenBucket.Bucket.Make` | redsim/ml/endpoint_broker.py:300-310 | a non-positive rate is refused; otherwise the bucket starts full, with the default capacity max(1, rate) |
| `TokenBucket.Bucket.Acquire` | redsim/ml/endpoint_broker.py:312-327 | one acquire as a transition of the level, and the wait it returns |
| `TokenBucket.ReadyHasToken` | redsim/ml/endpoint_broker.py:317-326 | waiting out the computed time fills the bucket to a whole token, or to its capacity where that is less, and earns no more than the elapsed time allows |
| `TokenBucket.TokenIsEarned` | redsim/ml/endpoint_broker.py:317-326 | for every capacity, the level before a grant and what the time until it earns make a whole token, also where the clamp acts |
| `TokenBucket.TokensStayInRange` | redsim/ml/endpoint_broker.py:312-327 | over any run and for every capacity, the tokens after a grant are in [0, max(0, capacity - 1)] |
| `TokenBucket.ClampIdleIff` | redsim/ml/endpoint_broker.py:326 | the clamp at zero never acts, over any run of a fresh bucket, if and only if the capacity is at least 1 |
| `TokenBucket.WindowBound` | redsim/ml/endpoint_broker.py:297-327 | for every capacity, any k grants inside a window of length d satisfy k <= max(1, capacity) + rate * d |
| `TokenBucket.LeastBurst` | redsim/ml/endpoint_broker.py:300-327 | max(1, capacity) is the least constant with which this holds on every run of a fresh bucket; so capacity + rate * d is a bound exactly when capacity is at least 1 |
| `Frames.HeaderRoundTrip` | redsim/ml/endpoint_broker.py:689 | the 4-byte big-endian header reads back as the length it was packed from |
| `Frames.HeaderTold` | redsim/ml/endpoint_broker.py:707-715 | the header is the length in base 256, most significant byte first |
| `Frames.CapTold` | redsim/ml/endpoint_broker.py:707-715 | a payload is refused exactly when its text is over 64 MiB |
| `Frames.ParseTold` | redsim/ml/endpoint_broker.py:717-727 | when a read succeeds, and which bytes give each failure: an announced length over the cap, a stream that ends early, text that does not decode |
| `Frames.Socket.RecvExactly` | redsim/ml/endpoint_broker.py:695-704 | exactly the next n bytes however `recv` chops them, or a failure when the stream ends first; it terminates |
| `Frames.Socket.WriteFrame` | redsim/ml/endpoint_broker.py:707-714 | sends header and data, or refuses a payload over the cap and sends nothing |
| `Frames.Socket.ReadFrame` | redsim/ml/endpoint_broker.py:717-727 | what one read makes of a byte stream, malformed and oversized frames included, does not depend on the chopping |
| `Frames.RoundTrip` | redsim/ml/endpoint_broker.py:707-727 | reading back what was written for any list of payloads returns exactly the payloads and consumes exactly their bytes |
| `Frames.SendAll` | redsim/ml/endpoint_broker.py:707-714 | writing a list of payloads sends exactly their frames, in order |
| `Frames.Transfer` | redsim/ml/endpoint_broker.py:695-727 | both ends: what one socket sent, chopped in any way and followed by anything, another receives payload by payload, leaving exactly what followed |
| `Broker.HttpPredictTransport.Predict` | redsim/ml/endpoint_broker.py:581-673 | one call as a transition: refused before anything is sent, or ended on the first non-retryable attempt of at most three, with the verdict, counters and adopted width that go with it |
| `Broker.CountedSums` | redsim/ml/endpoint_broker.py:387-397 | counting a served request adds one request and its rows to exactly one purpose |
| `Broker.CallIsBounded` | redsim/ml/endpoint_broker.py:432 | a call sends at most three times; its sends are its served request, its retries, and one for a failure after a send |
| `Broker.VerdictTold` | redsim/ml/endpoint_broker.py:581-681 | what each verdict means, as an if-and-only-if on the call, the limits and the last of at most three attempts: 200 with a table of the rows asked for and the adopted width is served, 401 and 403 fail the credential, a transport error or 500 and above at the end is unreachable, everything else mismatches |
| `Broker.ServedIff` | redsim/ml/endpoint_broker.py:656-665 | over every run: a call is served if and only if its limits allow it and the attempt it ends on is a 200 with a table of exactly its rows and of a positive width, the declared one where there is one, and that of every table served before |
| `Broker.Accounting` | redsim/ml/endpoint_broker.py:581-673 | over any run of calls: rows and requests served stay within the limits, per-purpose counters sum to the totals, sends = requests + retries + failures after a send, and failures = those plus budget refusals |
| `Broker.TalliesAreExact` | redsim/ml/endpoint_broker.py:387-397 | over every run there is one tally for each purpose that was served, with the number of its served requests and of their rows |
| `Broker.OneWidth` | redsim/ml/endpoint_broker.py:656-665 | every served response of a run has one width: the declared one, or that of the first |
| `Addresses.HostNetHoldsOneAddress` | redsim/ml/endpoint_egress.py:247-264 | a literal entry is a full-length prefix: its network holds that one address |
| `SoundLibrary.PlainIsSound` | redsim/ml/endpoint_egress.py:179-193 | the contract assumed of the address library can be met: a concrete library meets it |
| `Allowlist.EntryAgrees` | redsim/ml/endpoint_egress.py:257-271 | one entry admits a host under the egress policy exactly when the safety gate admits it for the entry's tidy form |
| `Allowlist.AllowlistsAgree` | redsim/safety.py:41-52 | the egress match finds an entry exactly when the safety gate's loop accepts the host against the tidied entries |
| `Allowlist.AlikeIff` | redsim/ml/endpoint_egress.py:247-272 | the two algorithms decide alike about one entry as written, for every host, if and only if it reads alike: a network parses to the same network tidied and untidied; any other entry is tidy, or an address, or names no host even when tidied |
| `Allowlist.AgreeOnAlikeEntries` | redsim/ml/endpoint_egress.py:247-272 | on a list of such entries the two algorithms agree outright, for names, literals and CIDR blocks |
| `Networks.NetIsItsMembers` | redsim/ml/endpoint_egress.py:238-244 | a network, base masked by its prefix, is determined by the addresses in it, of both families |
| `Allowlist.UntidyEntriesDisagree` | redsim/ml/endpoint_egress.py:250-252 | the docstring's "same acceptance" fails for an upper-case entry |
| `Pins.ParseAnswer` | redsim/ml/endpoint_egress.py:406-416 | exactly the addresses the items of a resolver answer stand for, each once and in order; a failure exactly when an item is not an address |
| `Pins.ResolveAndCheck` | redsim/ml/endpoint_egress.py:386-432 | every address a host stands for is permitted, or the host is refused under the rule that fails |
| `Pins.EgressSession.CheckRequestHost` | redsim/ml/endpoint_egress.py:435-464 | one check: its verdict, and a pin store that a refusal leaves alone and that holds the returned pin otherwise |
| `Pins.EgressSession.VerifyPin` | redsim/ml/endpoint_egress.py:158-167 | accepts an address exactly when its canonical text is the pin of the host |
| `Pins.CheckIsLawful` | redsim/ml/endpoint_egress.py:435-464 | a check repeats the pin of a pinned host or sets one that the rules permit, for its own host, and the pin it returns is among the addresses it returns |
| `Pins.PinsAreStable` | redsim/ml/endpoint_egress.py:149-167 | over any sequence of checks, answers and recheck flags: a pin once set never changes, and every pin is the text of an address the rules permit |
| `Pins.PermittedIsExempt` | redsim/ml/endpoint_egress.py:275-296 | a permitted address is public or exempt by name, never multicast, reserved or unspecified, and loopback only for a literal or an alias |
| `Pins.PinAcceptsOnlyItsAddress` | redsim/ml/endpoint_egress.py:158-193 | at any point of a session `verify_pin` accepts exactly the texts that denote the pinned address |
| `Pins.ReturnedPinStaysAccepted` | redsim/ml/endpoint_egress.py:158-167 | an address returned by a check is accepted by every later pin verification of that session |
| `HostNames.NormaliseTold` | redsim/ml/endpoint_egress.py:175-176 | normalising takes white space off both ends, then brackets, then lowers the letters, and nothing else |
| `HostNames.ValidHostnameIff` | redsim/ml/endpoint_egress.py:196-202 | a host name is at most 253 characters of labels joined by dots, each of 1 to 63 lower-case letters, digits and inner hyphens, the last one not a number |
| `EgressRules.ClassTold` | redsim/ml/endpoint_egress.py:205-228 | the class of an address, told by the traits of the address and of the IPv4 address embedded in it |
| `EgressRules.FirstMatchTold` | redsim/ml/endpoint_egress.py:247-272 | rule a: an entry is found exactly when some entry, tidied, names the host, or parses to the address it is, or to a network that holds it; and it is the first such entry |
| `EgressRules.PermittedIff` | redsim/ml/endpoint_egress.py:275-296 | rule d as an if-and-only-if on traits and raw entries: nothing speaks against the address and its embedded IPv4 address, or its traits are not beyond exemption and an entry names it, or is a private network that holds it, or is the loopback alias the host was given by |
| `EgressRules.ResolvedTold` | redsim/ml/endpoint_egress.py:386-432 | which hosts and resolver answers are refused under which rule, and that otherwise exactly the addresses the host stands for are returned, the first one first |
| `EgressRules.CheckTold` | redsim/ml/endpoint_egress.py:435-464 | when a connect-time check succeeds, and for each refusal exactly when it is given, on the host, the entries, the traits, the answer and the pins |
| `EgressRules.CheckReturns` | redsim/ml/endpoint_egress.py:435-464 | what a successful check returns: the pin, the addresses, the first entry that admits the host |
| `EgressRules.OnlyAllowedAddresses` | redsim/ml/endpoint_egress.py:435-464 | over every session and whatever the resolver answers, each address a successful check returns, pinned or resolved, is clean of every trait that speaks against it, or not beyond exemption and exempted by an entry |
| `EgressRules.NamesReachCleanAddresses` | redsim/ml/endpoint_egress.py:419-431 | a host that is no loopback alias, under a list of names only, never reaches an address with such a trait, nor one that embeds such an IPv4 address |
| `Decimals.ParsePrint` | redsim/ml/endpoint_egress.py:373-375 | the decimal port text reads back as the port |
| `Decimals.PrintIsShortest` | redsim/ml/endpoint_egress.py:373-375 | printing a parsed numeral drops leading zeros and never lengthens it |
| `Url.NetlocReadsBack` | redsim/ml/endpoint_egress.py:373-375 | the rendered host and port, IPv6 brackets included, read back as that host and port |
| `Url.RenderReadsBack` | redsim/ml/endpoint_egress.py:309-376 | splitting and reading a rendered normal form gives back the very target it was rendered from |
| `Url.AcceptedIsPlain` | redsim/ml/endpoint_egress.py:309-346 | every URL that passes the syntactic rules has a target whose normal form is well formed and within the length cap |
| `Url.NormalFormIsFixed` | redsim/ml/endpoint_egress.py:309-378 | whenever a registration URL is accepted, its normal form is accepted too and gives the same endpoint |
| `UrlGrammar.ReadsIff` | redsim/ml/endpoint_egress.py:309-347 | a URL is read as a target if and only if it is 1 to 2048 printable ASCII characters without query and fragment and spells that target: scheme and host in any letter case, IPv6 in brackets and nothing else bracketed but an IPvFuture text, no port or one from 1 to 65535, a path or none |
| `UrlGrammar.SchemeTold` | redsim/ml/endpoint_egress.py:315-318 | a URL has a scheme exactly when it starts with a letter and goes on with letters, digits, "+", "-" and "." up to its first colon |
| `UrlGrammar.RefusalsTold` | redsim/ml/endpoint_egress.py:320-346 | a refused URL is refused under the first rule it breaks, in the order scheme, userinfo, query, fragment, host, port, host |
| `EgressRules.RegistrationTold` | redsim/ml/endpoint_egress.py:349-372 | a URL that is read is accepted if and only if some entry admits its host, a literal address is allowed by rule d, and plaintext goes to a loopback alias or to a literal that something speaks against; each refusal is given exactly when the first of these fails |
| `EgressRules.EndpointTold` | redsim/ml/endpoint_egress.py:350-382 | what an accepted URL is registered as: its normal form with the default port dropped, the first admitting entry, the class by traits, the plaintext flags |
| `Url.AcceptedIsPermitted` | redsim/ml/endpoint_egress.py:309-382 | in particular the host is on the allowlist, a literal is of no never-exempt class, and plaintext goes to a loopback alias or a loopback, private or link-local literal |
| `Compare.CompatibleIff` | redsim/ml/compare.py:174-198 | compatible means equal compared config and equal recorded sample, without two records of one model that disagree on a recorded settings hash |
| `Compare.CompatibleIsLawful` | redsim/ml/compare.py:174-198 | the pairwise rule does not depend on the order of the two runs, and a run compatible with another is compatible with itself |
| `CompareRules.CompatibleRecordsIff` | redsim/ml/compare.py:174-200 | on the records' own mappings: two are compatible if and only if every config key reads the same on both (six keys left out, the scoring mapping key by key), both record the same sample, and they do not name different settings hashes for one model |
| `CompareRules.ReasonsTold` | redsim/ml/compare.py:174-200 | a name is given as a reason exactly when it reads differently, or the sample is missing or differs, or the settings hash is all that differs |
| `CompareRules.ScoringDifferenceIsNamed` | redsim/ml/compare.py:115-127 | a difference under scoring key k is named "scoring." + k and makes the runs incompatible |
| `CompareRules.LeftOutNeverMatters` | redsim/ml/compare.py:39-44 | a record compares and shares variables alike when its config changes only under the keys left out |
| `CompareRules.CommonTold` | redsim/ml/compare.py:174-200 | the variables two records share, on their own mappings |
| `CompareRules.HashesTold` | redsim/ml/compare.py:89-112 | the settings hash is the first true value of the record's, the score's and the provenance's; sample and model hashes are the provenance's; a score is complete when its MRI is there |
| `Compare.BridgesClashIff` | redsim/ml/compare.py:188-193 | compatibility fails to be transitive in exactly one way: two runs clash, and the third is of the same setting and of another model, or records no settings hash |
| `Compare.AmbiguousBreaksStar` | redsim/ml/compare.py:180-198 | an ambiguous run, one like it of another model and one like it without the null field are compatible, and the first shares a name with each of the others that those two do not share |
| `Grouping.Place` | redsim/ml/compare.py:449-466 | a member joins the first group whose first member it is compatible with, intersecting the shared variables, or opens a new group |
| `Grouping.GroupedStarShaped` | redsim/ml/compare.py:449-466 | every member is compatible with its group's first member and with no earlier group's first member |
| `Grouping.GroupedPartitions` | redsim/ml/compare.py:449-466 | each scored run is in exactly one group, in request order within it |
| `Grouping.GroupedReportStars` | redsim/ml/compare.py:458-461 | a group reports exactly the variables its first member shares with each of the others |
| `Grouping.ClassesIffTransitive` | redsim/ml/compare.py:396-466 | for any pairwise rule: the greedy groups are its classes if and only if it is transitive on the members |
| `CompareRuns.ComparabilityGroups` | redsim/ml/compare.py:427-461 | refuses a repeated run, otherwise computes the greedy partition and the unavailable list in request order |
| `CompareRuns.SplitRuns` | redsim/ml/compare.py:431-443 | sets aside, in request order, exactly the runs without a record or a complete score |
| `CompareRuns.RunsAreAccountedFor` | redsim/ml/compare.py:431-443 | every run of a batch is scored or unavailable, by whether its record and score are there |
| `CompareRules.ScoredInOrder` | redsim/ml/compare.py:396-466 | the scored runs are those with a complete score, each once and in request order |
| `CompareRules.UnavailableInOrder` | redsim/ml/compare.py:396-466 | the unavailable runs are the others, each once and in request order |
| `CompareRules.GroupReadsAlike` | redsim/ml/compare.py:396-466 | any two runs of one group read the same under every compared name and recorded the same sample |
| `CompareRules.AlikeStandTogether` | redsim/ml/compare.py:396-466 | two runs that read the same and recorded the same sample are parted only when the later one contradicts the first member of the earlier one's group |
| `CompareRuns.GroupsAreClassesIff` | redsim/ml/compare.py:396-466 | the groups of a batch are the classes of the pairwise rule (all pairs within compatible, none across) if and only if no clash of settings hashes between two scored runs is bridged by a third |
| `CompareRuns.GroupsAreClasses` | redsim/ml/compare.py:396-466 | in particular when no two scored runs of one model and setting record different settings hashes |
| `CompareRuns.BridgedClashBreaksGroups` | redsim/ml/compare.py:188-193 | a batch of three scored runs, none unavailable, whose groups are not such classes |
| `CompareRuns.ReportsWhatPairsShare` | redsim/ml/compare.py:458-461 | the variables a group reports are those shared by every pair of it, unless its first member misleads: scored, with a recorded sample, and a null field named like a hash it also records |
| `CompareRuns.ReportsPairsIff` | redsim/ml/compare.py:396-466 | every group a record starts, in any batch, reports exactly what all its pairs share, if and only if the record does not mislead |
| `CompareRuns.MisleadingReport` | redsim/ml/compare.py:458-461 | for every record that misleads, a batch of three compatible scored runs in one group that reports a variable two of them do not share |
| `CompareRuns.NullModelFieldMisleads` | redsim/ml/compare.py:458-461 | a concrete record that misleads, and its batch |
| `PairTable.Compare` | redsim/ml/compare.py:341-353 | the nested loop compares every pair, in row order |
| `PairTable.FindingsOfAllPairs` | redsim/ml/compare.py:341-356 | what it collects is what some pair differs on, what all pairs share, and exactly the differing pairs with their reasons, in row order |
| `CompareRuns.ComparisonTable` | redsim/ml/compare.py:321-388 | succeeds exactly for 2 to 10 distinct, pairwise compatible, completely scored runs, with the variables all pairs share; otherwise reports the count, the repetition, the differing pairs and variables, or the incomplete runs |
| `CompareRules.RowsTold` | redsim/ml/compare.py:341-356 | what the table compares for two of its rows, on their own mappings |
| `CompareRules.IncompleteInOrder` | redsim/ml/compare.py:356-364 | the incomplete runs a table names, each once and in row order |
| `CompareRuns.GroupsMakeTables` | redsim/ml/compare.py:321-466 | without a bridged clash, every group of 2 to 10 is accepted by the table, and reports the same shared variables unless its first member misleads |
| `Batcher.LogIngestWriter.Flush` | redsim/log_ingest/writer.py:114-135 | drains the whole queue into the table or loses it with a failed insert, counting only inserted rows; leaves the queue alone without a database |
| `Batcher.LogIngestWriter.AppendMany` | redsim/log_ingest/writer.py:91-112 | table followed by queue grows by exactly the appended rows, and the queue stays below the batch size |
| `Batcher.LogIngestShipper.Flush` | redsim/observability.py:554-572 | empties the buffer; the batch is shipped or dropped as a whole and counted once |
| `Batcher.LogIngestShipper.Emit` | redsim/observability.py:539-552 | shipped + dropped + buffered grows by one for every record that is not ignored, and the buffer stays below the batch size |
| `Batcher.StepConserves` | redsim/log_ingest/writer.py:91-135 | each atomic step of any thread keeps drained batches followed by the queue equal to the append order, and each counter equal to its counted batches |
| `Batcher.NothingIsLostOrDuplicated` | redsim/observability.py:539-572 | under every interleaving: drained batches in drain order followed by the queue are the rows in append order, and shipped + dropped + queued + in flight or uncounted = rows appended + records not rendered |
| `Batcher.EveryRowHasOnePlace` | redsim/log_ingest/writer.py:91-135 | after any interleaving each appended row is at exactly one place of exactly one drained batch, or at its place in the queue and in no batch |
| `Batcher.AppendOrder` | redsim/log_ingest/writer.py:91-103 | the append order of a run is that of its appends, whatever happened in between |
| `Batcher.StepsAreEnabled` | redsim/log_ingest/writer.py:91-135 | appending and draining never wait; a batch in flight can be delivered or refused, and one that was can be counted |
| `Batcher.FlushGetsThrough` | redsim/log_ingest/writer.py:114-135 | a flush nothing interrupts ships or drops the whole queue as one batch and touches no other |
| `Plugins.Registry.Register` | redsim/ml/registry.py:33-42 | adds an item under its id, or refuses a missing or a taken id and changes nothing |
| `Plugins.Loader.ScanEntryPoint` | redsim/plugins.py:167-224 | one entry point: its row and the new registry and memory, branch by branch |
| `Plugins.Loader.ScanEntryPoints` | redsim/plugins.py:129-224 | the loop computes the scan: rows in order, registry, memory, adapters made |
| `Plugins.ScanOneTold` | redsim/plugins.py:167-224 | one entry point on raw conditions: when it is skipped, when its remembered row is repeated, and otherwise the row, with the one reason that applies, and the new registry and memory |
| `Plugins.NothingRebound` | redsim/plugins.py:205-221 | no registered id is ever rebound by a scan, and a report changes no registration |
| `Plugins.RepeatsIffShadowFree` | redsim/plugins.py:174-182 | in terms of a load's rows: a re-load and a report repeat it if and only if no loaded entry point has the key of an earlier rejected one |
| `Plugins.LoadIsIdempotentIff` | redsim/plugins.py:147-153 | in terms of entry points, registry and memory before the load: a re-load and a report both yield the same rows and leave registry and memory alone, if and only if every candidate that repeats an earlier key has lost to an earlier claim on its key or id |
| `Plugins.LoadTold` | redsim/plugins.py:182-221 | what a load registers and remembers, told from the inputs alone: each candidate without an earlier winning rival |
| `Plugins.ReachedIsSane` | redsim/plugins.py:182-221 | every state reached from the empty memory by loads, reports, registry changes and memory resets is one the theorems apply to |
| `Plugins.EventsTold` | redsim/plugins.py:147-153 | what a scan, a change of the registry by others and a reset of the memory do, and where a process starts |
| `Plugins.DistinctKeysAreIdempotent` | redsim/plugins.py:147-153 | in particular whenever entry points have distinct (name, distribution, version) keys |
| `Plugins.ShadowedKeyChangesItsRow` | redsim/plugins.py:174-182 | two entry points under one key on which a second scan reports a different row |
| `Evaluation.SortedGrid` | redsim/ml/eval.py:99 | ascending, each eps once |
| `Evaluation.GridIsUnique` | redsim/ml/eval.py:99 | the grid, hence the result, does not depend on the order the mapping lists its keys in |
| `Evaluation.PertFirstSuccess` | redsim/ml/eval.py:90-110 | the count is the number of samples that some eps flips, and the mean their norms at the least eps that flips them, added up and divided by it; none when no sample flips; in terms of the one ascending grid, the mean and count of the contributed norms |
| `Evaluation.CountsTheFlipped` | redsim/ml/eval.py:104-108 | the samples counted are exactly those that some grid eps flips |
| `Evaluation.ContributesAtLeastFlip` | redsim/ml/eval.py:104-108 | each flipped sample contributes, in sample order, its norm at the least eps that flips it |
| `Evaluation.LeastNormsSum` | redsim/ml/eval.py:104-110 | the contributed norms add up to the sum, told without the grid, of each flipped sample's norm at the least eps that flips it |
| `Evaluation.MeanIsBetween` | redsim/ml/eval.py:110 | the mean lies between the least and greatest contributed norm |
| `Evaluation.FinerGridCountsMore` | redsim/ml/eval.py:90-110 | extending the grid never lowers the count |
| `Evaluation.PerClass` | redsim/ml/eval.py:113-118 | one entry per distinct class name, holding the counts of the last class of that name; the `n` of its entries sum to the number of samples if and only if every label indexes a class whose name is not given again |
| `Evaluation.CountsPositions` | redsim/ml/eval.py:113-118 | the two counts of a class are the numbers of the positions labelled with it, and labelled and predicted |
| `Evaluation.TotalIsEntrySum` | redsim/ml/eval.py:113-118 | the sum over the entries of the mapping, in whatever order, is the sum over the classes that keep their entry |
| `Evaluation.PerClassSumsIff` | redsim/ml/eval.py:141-143 | the `n` of the entries of the mapping sum to `n` if and only if every label indexes a class whose name is not given again, and never to more |
| `Evaluation.SamplesAreLost` | redsim/ml/eval.py:141-143 | two inputs on which they sum to less: a class name given twice, and a label outside the list |
| `Foundry.FoundryClient.PushFiles` | redsim/integrations/foundry.py:794-820 | the outcome and the exact sequence of requests, for every sequence of server replies, for the first and any later push of a client |
| `Foundry.ReceiptIff` | redsim/integrations/foundry.py:730-820 | a receipt is returned exactly when create, every upload in order and commit all answer below 400 and a transaction is named; it lists each file with the status of its own upload |
| `Foundry.FailureTold` | redsim/integrations/foundry.py:730-820 | when request k is the first that does not succeed: exactly the requests up to it and, unless it opens the transaction, one abort are sent; the failure names its step, its status and whether the abort was answered |
| `Foundry.WireAt` | redsim/integrations/foundry.py:794-820 | what the i-th request sent can be, told from its position |
| `Foundry.AbortExactlyOnFailure` | redsim/integrations/foundry.py:782-819 | an abort is sent, once and last, exactly when a transaction was opened and the push then failed |
| `Foundry.CommitAfterAllUploads` | redsim/integrations/foundry.py:808-814 | a commit is sent only after every file was uploaded successfully, in order |
| `Foundry.NothingAfterFailure` | redsim/integrations/foundry.py:730-742 | after the first request that does not succeed nothing is sent but the one abort |

## Left out

- AuditFile.JsonlAuditWriter.Last: a last line whose number is a float, or whose hash is an empty value other than null, goes on in the source and fails here; hash text that is not hexadecimal goes on here. A line that is not JSON fails the source's scan of every chain. The writer never writes such lines.
- AuditFile.JsonlAuditWriter.Append: `detail` arrives already redacted; redaction is string matching against fixed tables.
- AuditFile: per-chain files and their naming (`_path` is not injective for ids with `__` or `/`), and an absent file, which reads like an empty one.
- AuditProtocol: the exception that releases the lock is a release at any point of the critical section; which exception it was is not modelled.
- AuditPostgres: the writer is modelled as transactions on a table value, not as a class, because its state is the database; waiting for a row lock is a step that cannot be taken yet, and a database that locks as a whole only has fewer runs. Hashes as text longer than a digest, and the re-anchoring of `fs_to_pg`, are not modelled.
- `InMemoryAuditWriter`, WORM storage and `iter_chain_ids`: no hash chain, or plain enumeration.
- TokenBucket: the bucket's own lock; its acquires are one sequence. Floats are reals, so rounding is not modelled.
- Broker.HttpPredictTransport.Predict: latencies, byte counts, the rate-limit wait, back-off sleeps, fingerprints and notes; exceptions of the HTTP client other than timeout and transport errors, which escape uncounted. A response body is only undecodable or a table of some rows and one width.
- Frames: `_HEADER.pack` is applied to lengths under the cap only, as in the source; partial `sendall` and Unix socket paths are not modelled.
- Addresses: `ipaddress` is a contract. Case and whitespace are ASCII; hosts with other letters are outside the model.
- Allowlist.AllowlistsAgree: entries with a zone id, and how `_extract_host` gets the host out of a target, are not modelled; the host is taken in the form it extracts.
- Pins.EgressSession.CheckRequestHost: a call without a session keeps no pins and is left out; error messages are reduced to their rule.
- Url: `urlsplit` is modelled on printable ASCII only, which is all that reaches it; its IPvFuture branch is kept, and its own `ValueError` for brackets is an error of its own because the source does not catch it.
- Compare: JSON equality is structural, so `1`, `1.0` and `True` are different here; a top-level config field named like a flattened `scoring.` key loses to the flattened one, whatever their order.
- CompareRuns.ComparisonTable: the reasons of a pair are a set, without the order they are listed in; rows, changed variables and caveats are projections of single records.
- CompareRuns.ComparabilityGroups: the `unchanged_variables` of a group of one (its own fields), keys, scorecards and `incompatible_pairs` are not modelled.
- Batcher: the classes are for one thread and the state machine for any number; the periodic thread, the final flush of `close` and `flush`'s timing are further callers of the same steps. The database insert and the HTTP post succeed or fail as a whole.
- Plugins.LoadIsIdempotentIff: a report made before any load may differ from the load when two plugins share an id. The scan is eager here; the source yields lazily.
- Plugins.Loader.ScanEntryPoint: an adapter's identity is a serial number, so a factory that returns one object every time is not modelled; messages are reduced to their kind.
- Evaluation: floats are reals; `attack_success_rate`, `conf_gap`, the norms and `measure` are vector expressions without state.
- Foundry.FoundryClient.PushFiles: dataset rid syntax, digests, headers and TLS; an exception other than an HTTP error while uploading escapes without an abort in the source and is not modelled.
- Scoring, sandboxing, services, the web application, LLM routing, reports, doctor probes and the endpoint contract parser are not part of this model.
