# RXON, modelled and proved in Dafny

RXON is a protocol library for workers that connect out to an orchestrator. This project models the
parts of it that carry unbounded behaviour and proves what they are for. `dafny verify dfyconfig.toml`
checks everything.

**Resource matching.** `Matching` holds devices, resources and artifacts with their property checks
and the greedy device loop. `FirstFit` is the theory of that loop over any acceptance relation. First
fit is sound and monotone, but it is not a maximum matching: `AscendingThresholdsFail` gives a pool that
could serve the requirements and is refused. For a given pool and requirement list a test that can be
evaluated says exactly when the answers are right (`GreedyIsExactIffWellStocked`); over all pools the
exact condition is on the requirements alone (`GreedyIsExactIffWellOrdered`). Device matching is
transitive on scalar properties but not in general; `PassesOnIff` says through which devices it passes.

**Canonical payloads.** `Json` defines JSON trees with ordered dicts and their normal forms,
`JsonText` the text orjson writes and a reader for it, `Canonical` the pipeline of `to_dict`.
`Equivalence` says when two payloads mean the same, by rewriting and without any normaliser. The normal
form decides that relation. `to_dict` is idempotent except for integral floats outside the 64-bit range,
which it turns into ints that cannot be encoded again; `ToDictIdempotent` gives the exact condition.

**Signing.** `Signing` treats the MAC as a function of secret and message. Two payloads share a signed
message exactly when they are equivalent apart from the hidden top-level fields, and a signature
survives the trip over the wire. Only `VerifyDecides` assumes that the MAC has no collisions.

**Schemas.** `Types` gives the types, their values and what a value is encoded as; `Schema` the emitted
JSON Schema keywords with their draft-07 meaning and the compiler. `SchemaMeaning` is about soundness:
the compiler is not sound for every type. A required field may take None although `_is_optional` does
not see it (for instance `Annotated[str | None, ...]` in a Struct), a Struct field with the default
factory `list` or `dict` is required although it is omitted when empty, and private fields of a Struct
nested in a Struct are sent although the schema forbids them. `CompileSoundIff` proves that these are
the only failures, at any depth, for the types of the model and for unions that can be told apart, such
as every `X | None`. `SchemaExactness` is about the converse: on a fragment without dict, Any and UUID
the schema accepts exactly the payloads, but for two kinds of fields. One may be absent although every
value sends it; the other accepts its default although that is never sent, as for a flag whose default
is False (`FalseIsNeverSent`). `ExactnessCondition` proves, at any depth, that these are the only
failures (`CompileExactIff`).

**Models.** `ModelCodec` models `from_dict`, and `Stability` what a second `to_dict` gives. The
conversion is not always stable: an int in a float field is rounded to a double, a value may come back
as the default and be omitted, and a large integral float comes back as an int that cannot be encoded.
`ConversionIsStable` gives the exact condition, and `ConversionSettles` proves that one trip is enough.
`Doubles` is the rounding.

**Caches.** `ValidatorCache` and `TypeSchemaCache` are step machines for any number of threads, with
lookups outside the lock at any moment; `FifoCache` is the dict both of them use. `SchemaExtractor` and
the class `Validators` are the same code as one thread runs it. The repository's README calls the
validator cache a bounded LRU cache of up to 2048 entries; the code evicts the oldest entry, not the
least recently used one, and bounds the validators by 1024 and the type schemas by 2048. The model
follows the code.

**Transport.** `TokenProtocol` interleaves requests, registrations and refreshes at their await points.
`TokenOutcomes` says what the replies of the network determine: how a refresh and a request end, what
they send and which tokens are left. `HttpTransport` is the transport as one coroutine runs it, proved
to be a run of one task of that machine, with the delivery loop of `send_result`. `CommandStream` is
the WebSocket listener, and `SkillList` the comma-separated skill lists of a poll.

Three conventions: a bool is a number in property checks, as in Python; functions that Python takes
from its libraries (case folding, white space, the MAC, the compilation of a schema) are parameters; the
network, the closing flag and the scheduling of threads are arbitrary scripts.

## Model

| member | source | states |
|---|---|---|
| FirstFit.Sound | src/rxon/models.py:102-112 | when the greedy loop succeeds there is an injective assignment of requirements to accepting devices |
| FirstFit.Complete | src/rxon/models.py:102-112 | on an untangled pool and demand list any assignment implies that the loop succeeds (exchange argument) |
| FirstFit.BadOrderFails | src/rxon/models.py:105-111 | two requirements in bad order, with a device for both listed first, are refused although they can be assigned |
| FirstFit.ExactIffOrderly | src/rxon/models.py:102-112 | the loop decides assignability on every pool and every sublist if and only if each earlier requirement's acceptors are acceptors of every later one, or the two share none |
| FirstFit.ExactIffUntangled | src/rxon/models.py:102-112 | for a given pool and demand list the loop is right on every part of both if and only if no item accepting two demands stands in front of one accepting only the earlier |
| FirstFit.ExtraItemStep | src/rxon/models.py:105-112 | one step with an extra device leaves what the step without it leaves plus exactly one device |
| FirstFit.Monotone | src/rxon/models.py:102-112 | inserting devices anywhere and dropping requirements anywhere keeps success |
| Matching.CheckProperties | src/rxon/models.py:58-81 | the property loop returns whether every required key is present and acceptable: at least for two numbers, a shared choice otherwise |
| Matching.AcceptsMeaning | src/rxon/models.py:58-81 | the rule written out: None satisfies nothing, of two numbers the owned one is at least the required one, and otherwise the two are equal, one is among the items of the other, or two collections share an item |
| Matching.MatchDevice | src/rxon/models.py:44-81 | wildcard type and id, case-folded substring model, then the properties |
| Matching.MatchesMeaning | src/rxon/models.py:44-81 | a device matches exactly when a required type is its type, the folded required model is a part of its folded model, a required id is its id, and every required property is present and accepted |
| Matching.MatchResources | src/rxon/models.py:100-137 | the in-place greedy loop is first fit; a match serves every required generic property, and when first fit serves the devices the generic properties decide |
| Matching.MatchArtifact | src/rxon/models.py:146-178 | equal names, the version wildcard "unknown", and the same property rule |
| Matching.MatchesReflexive | src/rxon/models.py:44-81 | a device with non-None scalar properties matches itself |
| Matching.MatchesTransitive | src/rxon/models.py:44-81 | matching is transitive on devices with non-None scalar properties |
| Matching.PassesOnIff | src/rxon/models.py:44-81 | whatever matches b matches all that b matches, if and only if every property of b is a scalar other than a number or a collection of at most one item, or some property is an empty collection |
| Matching.CollectionsBreakTransitivity | src/rxon/models.py:63-80 | transitivity fails with a collection in the middle, on the right or on the left |
| Matching.GreedyIsExactIffWellOrdered | src/rxon/models.py:102-112 | over plain devices the greedy answer is right on all pools and sublists if and only if each earlier requirement matches every later one or no device satisfies both |
| Matching.GreedyIsExactIffWellStocked | src/rxon/models.py:102-112 | for any pool and requirements the greedy answer is right on every part of both if and only if no device satisfying two requirements stands in front of one satisfying only the earlier |
| Matching.RankedOnPoolIsExact | src/rxon/models.py:102-112 | it is right when each earlier requirement matches every later one or no owned device satisfies both, over plain devices |
| Matching.DescendingThresholdsAreExact | src/rxon/models.py:102-112 | thresholds on one numeric property listed from high to low are decided exactly |
| Matching.AscendingThresholdsFail | src/rxon/models.py:102-112 | listed from low to high they can be refused although an assignment exists |
| Matching.SatisfiesSound | src/rxon/models.py:100-137 | a match comes with one position in the owned devices for each requirement, all different, whose devices match |
| Matching.SatisfiesMonotone | src/rxon/models.py:100-137 | owning more and asking for less keeps a match |
| JsonText.RoundTrip | src/rxon/utils.py:50-56 | reading what was written gives the tree back, in front of any continuation |
| Json.NormalIsSorted | src/rxon/utils.py:50-56 | the normal form has its keys in ascending order at every level |
| JsonText.PrintInjective | src/rxon/utils.py:50-56 | no two trees have the same text |
| Equivalence.ToNormal | src/rxon/utils.py:61-71 | every tree is linked to its normal form by dropping None entries, exchanging keys and integral floats becoming ints |
| Equivalence.StepPreserves | src/rxon/utils.py:61-71 | no rewrite changes the normal form or the depth |
| Equivalence.NormalDecides | src/rxon/utils.py:61-71 | two trees have the same normal form if and only if a chain of rewrites connects them, with and without the None and float rules |
| Canonical.LoadsDumps | src/rxon/utils.py:50-56 | decoding an encoded payload gives it back, with keys sorted when asked for |
| Canonical.EncodableMeaning | src/rxon/utils.py:50-56 | a tree can be encoded exactly when every integer in it lies between -2^63 and 2^64-1 |
| Canonical.FinalizeMeaning | src/rxon/utils.py:61-71 | finalising succeeds exactly up to level 30, None entries of dicts not counted and None items of lists counted, and sorting its result gives the normal form |
| Canonical.ToDictMeaning | src/rxon/utils.py:27-58 | to_dict succeeds exactly on payloads whose ints fit 64 bits and whose depth is at most 30, fails with the matching error otherwise, and returns the normal form |
| Canonical.ToDictDecides | src/rxon/utils.py:27-58 | two encodable payloads have the same to_dict exactly when they are equivalent |
| Canonical.FinalizeDecides | src/rxon/utils.py:61-71 | the finaliser's results are equal as dicts exactly when the payloads are equivalent |
| Canonical.SortedTextDecides | src/rxon/schema.py:310-311 | two schemas share a validator-cache key exactly when they differ by key order only |
| Canonical.ToDictIdempotent | src/rxon/utils.py:27-71 | a second to_dict changes nothing if and only if all integral floats fit 64 bits, and otherwise fails on the integer range, never on depth |
| Canonical.ToDictNotIdempotent | src/rxon/utils.py:69-70 | a float for which the second call fails |
| Canonical.WireIsCanonical | src/rxon/utils.py:94-96 | what json_dumps writes reads back as the to_dict of the payload, which is then stable |
| Signing.SignPayload | src/rxon/security.py:32-52 | the loop that pops fields signs the canonical payload without the hidden top-level fields, or reports the empty secret or the to_dict error |
| Signing.MessageOfFields | src/rxon/security.py:42-51 | the message of an object holds, normalised and in key order, exactly the fields that are not None, not `security`, not `_signature` and not ignored |
| Signing.SignMeaning | src/rxon/security.py:39-60 | an empty secret signs nothing, without a secret or a signature nothing verifies, and otherwise the signature is the MAC of the message or its error |
| Signing.FilterNormal | src/rxon/security.py:42-49 | popping fields commutes with canonicalising |
| Signing.MessagesDecide | src/rxon/security.py:42-51 | two payloads share a signed message exactly when they are equivalent without the hidden fields |
| Signing.EquivalentPayloadsVerify | src/rxon/security.py:55-60 | a signature verifies for every payload equivalent to the signed one apart from hidden fields |
| Signing.VerifyDecides | src/rxon/security.py:55-60 | with a collision-free MAC it verifies for no others |
| Signing.WireIsSignable | src/rxon/security.py:42-51 | whatever json_dumps can write can be signed |
| Signing.SignatureSurvivesWire | src/rxon/security.py:55-60 | the signature of a payload verifies for what the receiver loads |
| Signing.SignatureSurvivesAddition | src/rxon/security.py:43-49 | adding a field `security` or `_signature`, an ignored field or a None field at any place keeps the signature valid |
| Signing.OtherAdditionIsNoticed | src/rxon/security.py:43-51 | adding any other new field changes the message, and with a collision-free MAC the signature no longer verifies |
| Types.SlotAppears | src/rxon/utils.py:38-43 | a field that is neither omitted, stripped nor None appears in the payload with the payload of its value |
| Types.FieldOrigin | src/rxon/utils.py:38-43 | every field of a payload comes from such a field |
| Types.RecordShows | src/rxon/utils.py:38-43 | the keys in the payload of a record: not those that hold None, not defaults where they are omitted, and private ones only of a Struct inside a Struct |
| Schema.ScalarAccepts | src/rxon/schema.py:147-210 | the JSON values that the schemas of str, int, float, bool, None and enums accept, an integral float being an integer |
| Schema.OptionalMeaning | src/rxon/schema.py:140-144 | in a Struct a union that names None is optional, in a dataclass any union that may be None except by way of Any, and nothing optional excludes None |
| SchemaMeaning.AbsenceMeaning | src/rxon/schema.py:97-132 | a visible field may be absent from an accepted object exactly when its type is optional, it has a default, or it is a dataclass field with a default factory |
| SchemaMeaning.RequiredIsPresent | src/rxon/schema.py:108-125 | a visible field without a default whose type excludes None is present in every accepted object |
| SchemaMeaning.CompileSound | src/rxon/schema.py:97-132 | on good types the payload of every value is accepted by the compiled schema |
| SchemaMeaning.BadFieldRejects | src/rxon/schema.py:100-111 | a field that violates the condition yields a value whose payload is rejected |
| SchemaMeaning.BadValueRejects | src/rxon/schema.py:100-111 | a value that the type of a visible field rejects yields a record whose payload is rejected |
| SchemaMeaning.RecordSoundIff | src/rxon/schema.py:97-144 | a record is sound if and only if the types of its visible fields are, no required field takes None or is omitted at its default, and no private field is sent |
| SchemaMeaning.UnionSoundIff | src/rxon/schema.py:171-178 | a union of which at most one alternative is sent as an array and at most one as an object is sound if and only if all alternatives are |
| SchemaMeaning.CompileSoundIff | src/rxon/schema.py:97-210 | for every type built from such unions, lists, annotations and records: the schema accepts every payload if and only if no record inside has a bad field |
| SchemaMeaning.AnnotatedOptionalFails | src/rxon/schema.py:140-144 | an annotated optional field of a Struct breaks soundness |
| SchemaExactness.AcceptedIsPayload | src/rxon/schema.py:147-210 | on the fragment, when all fields satisfy the condition, every accepted JSON value with unique keys is the payload of a value of the type |
| SchemaExactness.SchemaIsExact | src/rxon/schema.py:97-210 | on good types of the fragment whose fields satisfy the condition, the schema accepts a canonical value if and only if it is the payload of a value |
| ExactnessCondition.InexactFieldAccepts | src/rxon/schema.py:120-132 | a field that may be absent although every value sends it, or whose default is never sent, yields an accepted canonical value that is no payload |
| ExactnessCondition.InexactValueAccepts | src/rxon/schema.py:100-111 | so does a value that the type of a visible field accepts and never sends |
| ExactnessCondition.RecordExactIff | src/rxon/schema.py:97-144 | a sound record over the fragment is exact if and only if it has no such field and the types of its visible fields are exact |
| ExactnessCondition.UnionExactIff | src/rxon/schema.py:171-178 | a union that can be told apart is exact if and only if all alternatives are |
| ExactnessCondition.CompileExactIff | src/rxon/schema.py:97-210 | for every good type of the fragment with such unions: the schema accepts no canonical value but payloads if and only if no record inside, at any depth, has such a field |
| ExactnessCondition.AcceptedIsSent | src/rxon/utils.py:27-58 | within the bounds of to_dict, the schema of a sound and exact type accepts a canonical value if and only if to_dict returns it for some value of the type |
| ExactnessCondition.FalseIsNeverSent | src/rxon/models.py:236 | a flag with the default False in a Struct that omits defaults is accepted when it is false, and never sent so |
| Doubles.RoundIsNearest | src/rxon/utils.py:88-89 | an int converted to float becomes a double, no double is nearer, and exactly the doubles are kept |
| ModelCodec.ConvertMeaning | src/rxon/utils.py:74-91 | which JSON values each type refuses, and that None and, for a Struct, anything but a dict are handed back unchanged |
| ModelCodec.FieldsConverted | src/rxon/utils.py:88-89 | a missing key takes the default and is an error without one; a key that is there must convert, and its value is held |
| ModelCodec.ConvertedInhabits | src/rxon/utils.py:88-89 | whatever a conversion returns is a value of the type |
| ModelCodec.PayloadRestores | src/rxon/utils.py:74-91 | conversion of a payload succeeds with a value of the type, whose payload is the given one with ints in float positions rounded and recognised defaults left out, and is read as the same value again |
| Stability.ConversionResends | src/rxon/utils.py:74-91 | to_dict of from_dict of to_dict of a model: what it returns, and that it fails exactly when an int outside the float positions does not fit 64 bits |
| Stability.SteadyIsFixed | src/rxon/utils.py:74-91 | what is sent the next time equals the payload if and only if every int in a float position is a double and no field holds what will be left out |
| Stability.ConversionIsStable | src/rxon/utils.py:74-91 | the second to_dict equals the first if and only if the payload passes both tests |
| Stability.ConversionSettles | src/rxon/utils.py:74-91 | what the second to_dict returns is read as the same value, so that all later ones return the same |
| Stability.LargeIntIsRounded | src/rxon/models.py:321-328 | a task priority of 9007199254740993 comes back one smaller |
| Stability.EmptyDictIsOmitted | src/rxon/utils.py:66-67 | a dict of None values in a field with the default factory `dict` is gone the second time |
| FifoCache.EvictKeeps | src/rxon/schema.py:70-71 | eviction removes the oldest entry of a full cache and nothing else, and keeps the cache correct |
| FifoCache.PutKeeps | src/rxon/schema.py:72 | inserting an absent key keeps the cache bounded, correct, free of duplicates and in insertion order |
| ValidatorCache.StepInv | src/rxon/schema.py:315-338 | every step of every thread keeps the lock discipline and the cache invariant |
| ValidatorCache.CacheHistory | src/rxon/schema.py:296-338 | in every run at most 1024 entries and never fewer than 1023 of the latest insertions, all correct and in order, one insertion for each compilation, and a key compiled again only after 1024 insertions |
| ValidatorCache.ReturnedWasCached | src/rxon/schema.py:315-338 | a returned validator was in the cache at some instant of the call |
| ValidatorCache.NothingIffFailure | src/rxon/schema.py:307-338 | a call returns the compilation of its schema, and None exactly when the schema is empty or that fails |
| ValidatorCache.SomeCallCanStep | src/rxon/schema.py:319-320 | while a call is under way some call can take a step |
| ValidatorCache.Validators.GetCompiledValidator | src/rxon/schema.py:301-338 | the function as one call: the result is the compilation, or None for an empty schema, and the cache changes by eviction of the oldest entry and insertion, or not at all on a hit or a failure |
| ValidatorCache.UninterruptedCall | src/rxon/schema.py:301-338 | the steps of one thread without interruption do what the function does |
| TypeSchemaCache.AssembleCompiles | src/rxon/schema.py:97-132 | putting together the schemas of the nested records gives the schema of the type |
| TypeSchemaCache.StepInv | src/rxon/schema.py:51-74 | every step of every thread, inside any depth of nested calls, keeps the invariant |
| TypeSchemaCache.EveryCallIsUncached | src/rxon/schema.py:46-74 | in every run each call returns the uncached schema, and the cache holds at most 2048 entries, all correct and the latest in order |
| TypeSchemaCache.ComputedWasCached | src/rxon/schema.py:67-74 | a record whose schema a call has computed was in the cache, with that schema, at an instant inside the call |
| TypeSchemaCache.NoDeadlock | src/rxon/schema.py:67-72 | no thread waits for a lock it holds, and some call can always take a step |
| SchemaExtractor.Extractor.ExtractJsonSchema | src/rxon/schema.py:51-74 | the cached function returns the compiled schema, keeps the cache correct and leaves the type cached |
| SchemaExtractor.Extractor.ExtractUncached | src/rxon/schema.py:97-132 | the loops over the fields build the compiled properties and the required list |
| SchemaExtractor.Extractor.PythonType | src/rxon/schema.py:147-210 | the translation of a type in field position is the compiled schema, nested records going through the cache |
| TokenProtocol.StepInv | src/rxon/transports/http.py:105-224 | every step of every task keeps the token invariant |
| TokenProtocol.HeaderIsToken | src/rxon/transports/http.py:204-206 | a consequence for every state: header and token agree and are those of the latest renewal; the three assignments have no await between them |
| TokenProtocol.EndpointChoice | src/rxon/transports/http.py:188-197 | a refresh uses the refresh endpoint exactly when the latest renewal brought a non-empty refresh token, and sends that token |
| TokenProtocol.AtMostTwoSends | src/rxon/transports/http.py:119-136 | a task sends at most twice and refreshes at most once |
| TokenProtocol.SecondSendIsJustified | src/rxon/transports/http.py:132-136 | a second send follows a 401 and a successful refresh of the same task and carries a token that was current after that refresh |
| TokenProtocol.OutcomesAreEarned | src/rxon/transports/http.py:132-136 | a request ends with an authorisation error only after a 401 of its own, and a refresh reports success only after renewing the token |
| TokenOutcomes.RefreshSucceeds | src/rxon/transports/http.py:199-208 | status 200, tokens and an undisturbed end renew: the token fields are those of the answer and a request goes on with a copy of the new header |
| TokenOutcomes.RefreshFails | src/rxon/transports/http.py:199-211 | any other status, an exception, or a 200 without tokens changes no token field and is a failed refresh |
| TokenOutcomes.RefreshIsLost | src/rxon/transports/http.py:199-211 | an error on leaving the response keeps the new tokens and still reports a failed refresh |
| TokenOutcomes.Responds | src/rxon/transports/http.py:138-171 | what each status and body come to: an answer, a rate limit, a protocol, network or unexpected error |
| TokenOutcomes.Concludes | src/rxon/transports/http.py:129-182 | how a task ends once a response has arrived, for every status, body and error on leaving |
| TokenOutcomes.RenewedRequest | src/rxon/transports/http.py:105-224 | a request that is denied once and renews the token is sent again with the new one and returns the second answer |
| TokenOutcomes.RefusedRequest | src/rxon/transports/http.py:132-136 | a request that is denied and whose refresh is refused ends with an authorisation error after one send, with the tokens it had |
| HttpTransport.HttpTransport.RefreshToken | src/rxon/transports/http.py:184-211 | a refresh is a run of one task of the machine on the replies it consumed, and succeeds exactly when these are a 200, tokens and no error on leaving, the tokens then being stored |
| HttpTransport.HttpTransport.AwaitRefresh | src/rxon/transports/http.py:199-211 | from the post on, inside a request or by itself, it follows the machine, and succeeds exactly on a 200, tokens and no error on leaving |
| HttpTransport.HttpTransport.Perform | src/rxon/transports/http.py:105-224 | a request or registration is a run of one task of the machine on the replies it consumed, with at most two sends |
| HttpTransport.HttpTransport.Renew | src/rxon/transports/http.py:132-136 | after a first 401 either the request is about to be sent again with the new header or it fails |
| HttpTransport.HttpTransport.ReadBody | src/rxon/transports/http.py:152-171 | the body of a good response is the answer; an error reading the body of a 429 or an error response takes the place of that error |
| HttpTransport.HttpTransport.Close | src/rxon/transports/http.py:122-182 | an error on leaving a response takes the place of the outcome; otherwise a registration stores the tokens of its answer and a request does not |
| HttpTransport.HttpTransport.SendResult | src/rxon/transports/http.py:242-264 | the attempts are successive requests of the machine on the replies consumed; at most `retries` of them and twice as many sends, a retry only after a network error, and the sleeps and the result determined by the attempts |
| HttpTransport.TotalSleep | src/rxon/transports/http.py:260-261 | m sleeps take delay * (2^m - 1) in all |
| HttpTransport.VerdictMeaning | src/rxon/transports/http.py:249-264 | True exactly when the last attempt was answered, or needed no answer, and was not ignored, False exactly when it was ignored or there was no budget; the network error is raised exactly when there was a budget and all of it failed that way, any other error exactly when the last attempt ended with it |
| CommandStream.HeardMeaning | src/rxon/transports/http.py:299-309 | the commands of a connection are the parsable texts at exactly the positions before the first close or error, in order |
| CommandStream.CommandsMeaning | src/rxon/transports/http.py:292-322 | the commands of the listener are those of its connections one after the other, a refused one giving none |
| CommandStream.ListenForCommands | src/rxon/transports/http.py:287-322 | without a close request the commands of all connections in order, with one only a prefix of them; each sleep given by the attempts since the latest success; every connection attempt and every reading of the closing flag on the trail; nothing after closing is read in the outer loop, and no connection after it is read anywhere |
| CommandStream.ReadMessages | src/rxon/transports/http.py:299-309 | the commands are the parsable texts among the messages read, in order; reading ends after the last message, at a close or error, or at the first test that read closing, and an unparsable text does not end it |
| CommandStream.SinceSuccessMeaning | src/rxon/transports/http.py:291-321 | the count behind a sleep goes back to the latest successful connection, or to the first attempt |
| SkillList.StripMeaning | src/rxon/transports/http_server.py:132-138 | stripping removes white space from both ends and no more |
| SkillList.PieceMeaning | src/rxon/transports/http_server.py:132-138 | a piece is dropped exactly when it is all white space, and is otherwise stripped |
| SkillList.DecodeConcat | src/rxon/transports/http_server.py:132-138 | a comma separates what is read before it from what is read after it |
| SkillList.DecodeJoin | src/rxon/transports/http_server.py:132-138 | the server reads the stripped non-empty comma pieces of all skills, in order |
| SkillList.RoundTrip | src/rxon/transports/http.py:234-237 | the server reads the client's list back if and only if every skill is non-empty, free of commas and without white space at its ends |

## Left out

- JsonText.PrintInjective: numbers are written in positional notation, while orjson uses an exponent for very large and very small floats; the spelling differs, but different numbers still have different texts. Negative zero is identified with zero, and NaN and infinities do not occur.
- Canonical.ToDictMeaning: a tree that is too deep and also holds an int outside 64 bits is reported with the integer error; beyond orjson's own nesting limit the library may meet the depth first.
- Canonical.LoadsDumps: the reader keeps repeated keys of an object, as no text written here has any; a Python dict would keep the last.
- Matching.MatchDevice: property values are scalars and collections of scalars; dict values, tuples and unhashable list items are not modelled, and `metrics` is never read by the code.
- SchemaExactness.AcceptedIsPayload: a dataclass never omits a default, so an absent field with a default is explained only in the reading that omits defaults everywhere (`lean`); `SchemaIsExact` and `CompileExactIff` are about the payloads that are really sent.
- Schema.IsOptional: for a dataclass the resolved hints also flatten a union that was nested in an annotation; the model keeps the nested `anyOf`, which accepts the same values.
- Stability.ConversionIsStable: of the unions only `X | None` is converted, and what msgspec does with inputs that are not canonical payloads is left open. Which strings and floats happen to be the default object is left open; only None, bools, enum members, ints from -5 to 256 and the empty string are known to have one object each.
- TypeSchemaCache.EveryCallIsUncached: calls with a custom extractor bypass the cache at the top and are not modelled, nor are inputs that already are schemas. A record type is known by its fields, so two classes with equal fields share one key of the cache, where the code keeps two.
- SchemaMeaning.CompileSoundIff: for a union with two alternatives that are sent in the same form, such as two records, soundness of all alternatives is proved sufficient only; one alternative may accept what another one rejects of its own. The msgspec options `rename`, `tag`, `array_like` and encoded field names are not in the types; the compiler uses the attribute names, so payloads of such Structs can be rejected for that reason.
- ExactnessCondition.CompileExactIff: payloads here ignore the bounds of to_dict on integers and depth; `AcceptedIsSent` states the result within them. A dict accepts any object whatever its value type, and the string of a UUID need not be one, so both are outside the fragment.
- ValidatorCache.StepInv: the fallback key for schemas orjson cannot encode is not modelled; reading the length and removing the oldest entry are one step, as both happen under the lock.
- CommandStream.ListenForCommands: a closed session is read together with the closing flag, and exceptions thrown into the generator at a yield are not modelled.
- Self-referential types, types with their own `model_json_schema` or `schema`, function signatures and their attribute caches: Python introspection.
- Arbitrary objects, datetimes and non-string keys in `to_dict`: they become strings before anything modelled here happens.
- The internals of SHA-256, HMAC and Ed25519, certificates and TLS set-up, aiohttp sessions and sockets: foreign code.
- Ed25519 and bubbling-chain signatures, `calculate_dict_hash`: the same canonical message with another function on top.
- Wording of validation messages, logging, `Retry-After` dates, version-mismatch warnings: no effect on the modelled state.
- HTTP listener routes and their status codes, heartbeat and event calls, `SkillInfo.matches`, `to_index`, blob, factory, testing and validators modules: they would only add easy members.
